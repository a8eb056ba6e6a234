// Face features as stored (internal/face/codec.go): each 32-bit float by its bit
// pattern, four bytes in little-endian order.
module FaceCodec {
  import opened Prelude

  newtype Bits32 = b: int | 0 <= b < 0x1_0000_0000

  type Feature = seq<Bits32>

  function ByteOf(v: Bits32, i: nat): Byte
    requires i < 4
  {
    var n := v as int;
    if i == 0 then (n % 256) as Byte
    else if i == 1 then (n / 256 % 256) as Byte
    else if i == 2 then (n / 65536 % 256) as Byte
    else (n / 16777216) as Byte
  }

  function Word(b0: Byte, b1: Byte, b2: Byte, b3: Byte): Bits32 {
    (b0 as int + 256 * (b1 as int) + 65536 * (b2 as int) + 16777216 * (b3 as int)) as Bits32
  }

  function Encode(feature: Feature): (raw: seq<Byte>)
    ensures |raw| == 4 * |feature|
  {
    if feature == [] then []
    else
      var v := feature[|feature| - 1];
      Encode(feature[..|feature| - 1]) + [ByteOf(v, 0), ByteOf(v, 1), ByteOf(v, 2), ByteOf(v, 3)]
  }

  function Words(raw: seq<Byte>): (feature: Feature)
    requires |raw| % 4 == 0
    ensures 4 * |feature| == |raw|
  {
    if raw == [] then []
    else
      var n := |raw|;
      Words(raw[..n - 4]) + [Word(raw[n - 4], raw[n - 3], raw[n - 2], raw[n - 1])]
  }

  // The empty row and rows of an odd length are no features.
  function Decode(raw: seq<Byte>): Option<Feature> {
    if |raw| == 0 || |raw| % 4 != 0 then None else Some(Words(raw))
  }

  lemma WordOfBytes(v: Bits32)
    ensures Word(ByteOf(v, 0), ByteOf(v, 1), ByteOf(v, 2), ByteOf(v, 3)) == v
  {
    var n := v as int;
    assert n == n % 256 + 256 * (n / 256);
    assert n / 256 == n / 256 % 256 + 256 * (n / 65536);
    assert n / 65536 == n / 65536 % 256 + 256 * (n / 16777216);
  }

  lemma BytesOfWord(b0: Byte, b1: Byte, b2: Byte, b3: Byte)
    ensures var v := Word(b0, b1, b2, b3);
            ByteOf(v, 0) == b0 && ByteOf(v, 1) == b1 && ByteOf(v, 2) == b2 && ByteOf(v, 3) == b3
  {
    var n := Word(b0, b1, b2, b3) as int;
    var q1 := b1 as int + 256 * (b2 as int) + 65536 * (b3 as int);
    var q2 := b2 as int + 256 * (b3 as int);
    assert n == b0 as int + 256 * q1 && q1 == b1 as int + 256 * q2;
    assert n / 256 == q1 && n / 65536 == q2 && n / 16777216 == b3 as int;
  }

  lemma {:induction false} WordsOfEncode(feature: Feature)
    ensures Words(Encode(feature)) == feature
  {
    if feature != [] {
      var n, raw := |feature| - 1, Encode(feature);
      WordsOfEncode(feature[..n]);
      assert raw[..|raw| - 4] == Encode(feature[..n]);
      WordOfBytes(feature[n]);
    }
  }

  lemma {:induction false} EncodeOfWords(raw: seq<Byte>)
    requires |raw| % 4 == 0
    ensures Encode(Words(raw)) == raw
  {
    if raw != [] {
      var n := |raw|;
      var front, last := raw[..n - 4], Word(raw[n - 4], raw[n - 3], raw[n - 2], raw[n - 1]);
      EncodeOfWords(front);
      EncodeMore(Words(front), last);
      BytesOfWord(raw[n - 4], raw[n - 3], raw[n - 2], raw[n - 1]);
      assert raw == front + [raw[n - 4], raw[n - 3], raw[n - 2], raw[n - 1]];
    }
  }

  lemma EncodeMore(feature: Feature, v: Bits32)
    ensures Encode(feature + [v]) == Encode(feature) + [ByteOf(v, 0), ByteOf(v, 1), ByteOf(v, 2), ByteOf(v, 3)]
  {
    assert (feature + [v])[..|feature|] == feature;
  }

  // A feature comes back bit by bit unless it is empty, and a row that decodes is
  // the encoding of what it decodes to.
  lemma RoundTrip(feature: Feature, raw: seq<Byte>)
    ensures Decode(Encode(feature)) == if feature == [] then None else Some(feature)
    ensures Decode(raw).Some? ==> Encode(Decode(raw).value) == raw
  {
    WordsOfEncode(feature);
    if |raw| % 4 == 0 {
      EncodeOfWords(raw);
    }
  }

  // Four bytes to a value, the lowest first.
  lemma {:induction false} LowestFirst(feature: Feature, i: nat)
    requires i < |feature|
    ensures var raw := Encode(feature);
            feature[i] as int == raw[4 * i] as int + 0x100 * raw[4 * i + 1] as int
                                 + 0x1_0000 * raw[4 * i + 2] as int + 0x100_0000 * raw[4 * i + 3] as int
  {
    var n := |feature| - 1;
    if i < n {
      LowestFirst(feature[..n], i);
    } else {
      WordOfBytes(feature[n]);
    }
  }

  method EncodeFeature(feature: Feature) returns (raw: array<Byte>)
    ensures fresh(raw) && raw[..] == Encode(feature)
  {
    raw := new Byte[|feature| * 4];
    for i := 0 to |feature|
      invariant raw[..4 * i] == Encode(feature[..i])
    {
      assert feature[..i + 1][..i] == feature[..i];
      PutUint32(raw, 4 * i, feature[i]);
    }
    assert feature[..|feature|] == feature && raw[..4 * |feature|] == raw[..];
  }

  method PutUint32(raw: array<Byte>, at: nat, v: Bits32)
    requires at + 4 <= raw.Length
    modifies raw
    ensures raw[..at + 4] == old(raw[..at]) + [ByteOf(v, 0), ByteOf(v, 1), ByteOf(v, 2), ByteOf(v, 3)]
  {
    raw[at], raw[at + 1], raw[at + 2], raw[at + 3] := ByteOf(v, 0), ByteOf(v, 1), ByteOf(v, 2), ByteOf(v, 3);
  }

  method DecodeFeature(raw: seq<Byte>) returns (feature: Option<Feature>)
    ensures feature == Decode(raw)
    ensures feature.None? <==> |raw| == 0 || |raw| % 4 != 0
  {
    if |raw| == 0 || |raw| % 4 != 0 {
      return None;
    }
    var words := new Bits32[|raw| / 4];
    for i := 0 to |raw| / 4
      invariant words[..i] == Words(raw[..4 * i])
    {
      assert raw[..4 * (i + 1)][..4 * i] == raw[..4 * i];
      words[i] := Word(raw[4 * i], raw[4 * i + 1], raw[4 * i + 2], raw[4 * i + 3]);
      assert words[..i + 1] == words[..i] + [words[i]];
    }
    assert raw[..4 * (|raw| / 4)] == raw && words[..|raw| / 4] == words[..];
    return Some(words[..]);
  }
}
