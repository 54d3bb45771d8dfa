/**
 Method identities: the guest's build script hashes its snake_case source names,
 the hosts hash the kebab-case export names they discover. The digest itself is
 a parameter of everything here.
 */
module MethodIdentity {
  import opened Bits
  import opened Utf8

  type Digest = d: bytes | |d| == 32 witness seq(32, _ => 0)

  /** Four little-endian 64-bit words. */
  datatype MethodHash = MethodHash(a: u64, b: u64, c: u64, d: u64)

  /** `word(i)`: bytes `8 * i` to `8 * i + 8` as a little-endian integer. */
  function Word(d: Digest, i: nat): u64
    requires i < 4
  {
    WordFits(d[8 * i..8 * i + 8]);
    FromLeBytes(d[8 * i..8 * i + 8])
  }

  lemma WordFits(s: bytes)
    requires |s| == 8
    ensures FromLeBytes(s) < TWO_64
  {
    FromLeBytesRoundTrip(s);
    Pow2Values();
  }

  function Words(d: Digest): MethodHash {
    MethodHash(Word(d, 0), Word(d, 1), Word(d, 2), Word(d, 3))
  }

  function Unwords(h: MethodHash): Digest {
    LeBytes(h.a, 8) + LeBytes(h.b, 8) + LeBytes(h.c, 8) + LeBytes(h.d, 8)
  }

  /** The four words are a bijection on 32-byte digests. */
  lemma WordsBijective(d: Digest, h: MethodHash)
    ensures Unwords(Words(d)) == d
    ensures Words(Unwords(h)) == h
  {
    WordsKeepDigest(d);
    WordsOfBytes(h);
  }

  lemma WordsKeepDigest(d: Digest)
    ensures Unwords(Words(d)) == d
  {
    WordBytes(d, 0);
    WordBytes(d, 1);
    WordBytes(d, 2);
    WordBytes(d, 3);
    FourParts(d);
  }

  lemma WordBytes(d: Digest, i: nat)
    requires i < 4
    ensures LeBytes(Word(d, i), 8) == d[8 * i..8 * i + 8]
  {
    FromLeBytesRoundTrip(d[8 * i..8 * i + 8]);
  }

  lemma FourParts(d: Digest)
    ensures d == d[0..8] + d[8..16] + d[16..24] + d[24..32]
  {
  }

  lemma WordsOfBytes(h: MethodHash)
    ensures Words(Unwords(h)) == h
  {
    var u := Unwords(h);
    assert u[0..8] == LeBytes(h.a, 8) && u[8..16] == LeBytes(h.b, 8);
    assert u[16..24] == LeBytes(h.c, 8) && u[24..32] == LeBytes(h.d, 8);
    WordReadsBack(h.a);
    WordReadsBack(h.b);
    WordReadsBack(h.c);
    WordReadsBack(h.d);
  }

  lemma WordReadsBack(w: u64)
    ensures FromLeBytes(LeBytes(w, 8)) == w
  {
    Pow2Values();
    LeBytesRoundTrip(w, 8);
  }

  /** `rsplit('.').next()`: what follows the last dot, or everything when there is none. */
  function LastSegment(export_: string): (r: string)
    ensures '.' !in r
  {
    if export_ == "" then ""
    else if export_[|export_| - 1] == '.' then ""
    else LastSegment(export_[..|export_| - 1]) + [export_[|export_| - 1]]
  }

  /** `replace(from, to)` for single characters. */
  function Replace(s: string, from: char, to: char): (r: string)
    ensures |r| == |s|
    ensures forall i | 0 <= i < |s| :: r[i] == if s[i] == from then to else s[i]
  {
    seq(|s|, i requires 0 <= i < |s| => if s[i] == from then to else s[i])
  }

  /** The guest's identity of a method, from its source name. */
  function GuestHash(name: string, sha: bytes -> Digest): MethodHash {
    Words(sha(WriteUtf8(name)))
  }

  /** The host's identity of a method, from its export name. */
  function HostHash(export_: string, sha: bytes -> Digest): MethodHash {
    Words(sha(WriteUtf8(SourceName(export_))))
  }

  /** The source name a host recovers from an export name. */
  function SourceName(export_: string): string {
    Replace(LastSegment(export_), '-', '_')
  }

  /** How a source name is exported: kebab-case, behind the resource prefix. */
  function ExportName(name: string): string {
    "[method]utxo." + Replace(name, '_', '-')
  }

  lemma {:induction false} LastSegmentAfterDot(prefix: string, s: string)
    requires '.' !in s && (prefix == "" || prefix[|prefix| - 1] == '.')
    ensures LastSegment(prefix + s) == s
    decreases |s|
  {
    var e := prefix + s;
    if s == "" {
      assert e == prefix;
    } else {
      assert e[..|e| - 1] == prefix + s[..|s| - 1];
      assert e[|e| - 1] == s[|s| - 1] && s[|s| - 1] in s;
      LastSegmentAfterDot(prefix, s[..|s| - 1]);
      assert s[..|s| - 1] + [s[|s| - 1]] == s;
    }
  }

  /** A host recovers exactly the source name from the export name, so both sides compute the same identity. */
  lemma IdentityAgrees(name: string, sha: bytes -> Digest)
    requires '-' !in name && '.' !in name
    ensures SourceName(ExportName(name)) == name
    ensures HostHash(ExportName(name), sha) == GuestHash(name, sha)
  {
    var kebab := Replace(name, '_', '-');
    assert '.' !in kebab by {
      forall i | 0 <= i < |kebab| ensures kebab[i] != '.' { assert name[i] in name; }
    }
    LastSegmentAfterDot("[method]utxo.", kebab);
    assert forall i | 0 <= i < |name| :: name[i] in name;
    assert Replace(kebab, '-', '_') == name;
  }

  /** The recovery goes wrong for a source name with a dash or a dot in it, and only for those. */
  lemma RecoveryExact(name: string)
    ensures SourceName(ExportName(name)) == name <==> '-' !in name && '.' !in name
  {
    var back := SourceName(ExportName(name));
    assert '-' !in back by {
      var last := LastSegment(ExportName(name));
      assert forall i | 0 <= i < |last| :: back[i] != '-';
    }
    assert '.' !in back by {
      var last := LastSegment(ExportName(name));
      assert forall i | 0 <= i < |last| :: last[i] in last;
    }
    if '-' !in name && '.' !in name {
      IdentityAgrees(name, _ => seq(32, _ => 0));
    }
  }

  /**
   Two exports share an identity exactly when the digests of their recovered
   source names are equal; so unless the digest collides, when those names are.
   */
  lemma SharedIdentity(e: string, f: string, sha: bytes -> Digest)
    ensures HostHash(e, sha) == HostHash(f, sha) <==> sha(WriteUtf8(SourceName(e))) == sha(WriteUtf8(SourceName(f)))
    ensures SourceName(e) == SourceName(f) <==> WriteUtf8(SourceName(e)) == WriteUtf8(SourceName(f))
  {
    WordsBijective(sha(WriteUtf8(SourceName(e))), Words(sha(WriteUtf8(SourceName(e)))));
    WordsBijective(sha(WriteUtf8(SourceName(f))), Words(sha(WriteUtf8(SourceName(f)))));
    if WriteUtf8(SourceName(e)) == WriteUtf8(SourceName(f)) { Utf8Injective(SourceName(e), SourceName(f)); }
  }

  /** Two different kebab-case methods that share an identity exhibit a collision of the digest. */
  lemma KebabNamesCollide(a: string, b: string, sha: bytes -> Digest)
    requires '_' !in a && '.' !in a && '_' !in b && '.' !in b && a != b
    requires HostHash("[method]utxo." + a, sha) == HostHash("[method]utxo." + b, sha)
    ensures var x, y := WriteUtf8(Replace(a, '-', '_')), WriteUtf8(Replace(b, '-', '_')); x != y && sha(x) == sha(y)
  {
    var p := "[method]utxo.";
    LastSegmentAfterDot(p, a);
    LastSegmentAfterDot(p, b);
    SharedIdentity(p + a, p + b, sha);
    if Replace(a, '-', '_') == Replace(b, '-', '_') { ReplaceInjective(a, b); }
  }

  /** Dashes to underscores loses nothing on names without underscores. */
  lemma ReplaceInjective(a: string, b: string)
    requires '_' !in a && '_' !in b && Replace(a, '-', '_') == Replace(b, '-', '_')
    ensures a == b
  {
    var r := Replace(a, '-', '_');
    assert |a| == |r| == |b|;
    forall i | 0 <= i < |a| ensures a[i] == b[i] {
      assert a[i] in a && b[i] in b;
      assert r[i] == if a[i] == '-' then '_' else a[i];
      assert r[i] == if b[i] == '-' then '_' else b[i];
    }
  }

  /** The four words in their order. */
  function WordAt(h: MethodHash, i: nat): u64
    requires i < 4
  {
    if i == 0 then h.a else if i == 1 then h.b else if i == 2 then h.c else h.d
  }

  /**
   The identity of a source name is the digest of its UTF-8 form, cut into
   little-endian words: byte `j` of word `i` is byte `8 * i + j` of the digest.
   */
  lemma IdentityIsDigest(name: string, s: bytes, sha: bytes -> Digest, i: nat, j: nat)
    requires TextForm(name, s) && i < 4 && j < 8
    ensures sha(s)[8 * i + j] == WordAt(GuestHash(name, sha), i) / Pow2(8 * j) % 256
  {
    TextFormWritten(name, s);
    var d := sha(s);
    WordBytes(d, i);
    LeByteIsDigit(Word(d, i), 8, j);
  }

  /** A host takes the part behind the last dot, with underscores for dashes, as the source name. */
  lemma HostTakesLastSegment(prefix: string, segment: string, sha: bytes -> Digest)
    requires '.' !in segment && (prefix == "" || prefix[|prefix| - 1] == '.')
    ensures HostHash(prefix + segment, sha) == GuestHash(Replace(segment, '-', '_'), sha)
  {
    LastSegmentAfterDot(prefix, segment);
  }
}
