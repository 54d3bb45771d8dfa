/** One served method invocation: parameters decoded off the stream in order, results encoded back to back. */
module Invocation {
  import opened Wrappers
  import opened Bits
  import opened Leb128
  import opened Values
  import opened Encoder
  import opened Decoder
  import opened CodecTheorems
  import ReadBack

  /** Fills the parameter vector: the resource handle first, then one decoded value per further parameter. */
  method DecodeParams(rx: Reader, self: Val, types: seq<Type>) returns (params: array<Val>, err: Option<ReadError>)
    requires |types| >= 1
    modifies rx
    ensures fresh(params) && params.Length == |types|
    ensures Reads(DecTuple(types[1..], old(rx.rest)), old(rx.rest), rx.rest, err)
    ensures err.None? ==> params[..] == [self] + DecTuple(types[1..], old(rx.rest)).value
  {
    params := new Val[|types|](_ => Val.Bool(false));
    params[0] := self;
    ghost var total, seen: nat, done: seq<Val> := DecTuple(types[1..], rx.rest), 0, [];
    ContinuesStart(total);
    for i := 1 to |types|
      invariant params[..i] == [self] + done
      invariant Left(old(rx.rest), seen, rx.rest)
      invariant Continues(total, done, seen, DecTuple(types[i..], rx.rest))
    {
      TupleStep(types[i..], rx.rest, total, done, seen);
      assert types[i..][1..] == types[i + 1..];
      ghost var here, before := Dec(types[i], rx.rest), rx.rest;
      var v: Val;
      v, err := ReadNext(rx, types[i]);
      if err.Some? {
        return;
      }
      LeftStep(old(rx.rest), seen, before, here.used);
      params[i] := v;
      done := done + [v];
      seen := seen + here.used;
    }
    assert params[..] == params[..|types|];
    err := None;
  }

  /** Encodes the results one after the other into a fresh buffer. */
  method EncodeResults(results: seq<Val>, types: seq<Type>) returns (buf: BytesMut, err: Option<EncodeError>)
    ensures fresh(buf)
    ensures Written(buf.data, err) == EncTuple(types, results)
  {
    buf := new BytesMut();
    err := ValEncoder.EncodeTuple(types, results, buf);
  }

  /** What a caller encodes back to back for a parameter list is what the callee decodes, and nothing of what follows. */
  lemma ParametersArrive(types: seq<Type>, args: seq<Val>, after: bytes)
    requires |args| == |types|
    requires forall i | 0 <= i < |types| :: Named(types[i]) && Supported(types[i]) && WellTyped(types[i], args[i])
    ensures EncTuple(types, args).err.None?
    ensures DecTuple(types, EncTuple(types, args).out + after)
         == Got(CanonTuple(types, args), |EncTuple(types, args).out|)
    ensures |CanonTuple(types, args)| == |args|
    ensures forall i | 0 <= i < |args| :: CanonTuple(types, args)[i] == Canon(types[i], args[i])
  {
    RoundTrip(Type.Tuple(types), Val.Tuple(args), after);
    ReadBack.CanonTupleAt(types, args);
  }
}
