/** Wire format of the local symmetric data link (LSD):
    STX : CH-LENH : LENL : DATA : ETX, with no byte stuffing. */
module LsdFrames {
  import opened Bytes

  /** The one character that both starts and ends a frame. */
  const STX_ETX: byte := 0x7E
  const MAX_CH := 4
  const MAX_LEN := 4095

  datatype Frame = Frame(ch: nat, payload: seq<byte>) {
    predicate Valid() {
      ch < MAX_CH && 1 <= |payload| <= MAX_LEN
    }
  }

  /** First header byte: channel in the high nibble, bits 8-11 of the length in the low one. */
  function ChLenH(ch: nat, len: nat): byte
    requires ch < MAX_CH && len <= MAX_LEN
  {
    ch * 16 + len / 256
  }

  function LenL(len: nat): byte {
    len % 256
  }

  /** Everything that follows the opening STX. */
  function Body(f: Frame): seq<byte>
    requires f.Valid()
  {
    [ChLenH(f.ch, |f.payload|), LenL(|f.payload|)] + f.payload + [STX_ETX]
  }

  function Encode(f: Frame): seq<byte>
    requires f.Valid()
  {
    [STX_ETX] + Body(f)
  }

  predicate AllValid(fs: seq<Frame>) {
    forall i :: 0 <= i < |fs| ==> fs[i].Valid()
  }

  function EncodeAll(fs: seq<Frame>): seq<byte>
    requires AllValid(fs)
  {
    if fs == [] then [] else Encode(fs[0]) + EncodeAll(fs[1..])
  }

  lemma {:induction false} EncodeAllAppend(fs: seq<Frame>, f: Frame)
    requires AllValid(fs) && f.Valid()
    ensures EncodeAll(fs + [f]) == EncodeAll(fs) + Encode(f)
  {
    hide Encode;
    if fs == [] {
      assert EncodeAll([f]) == Encode(f) + EncodeAll([]);
    } else {
      EncodeAllAppend(fs[1..], f);
      assert (fs + [f])[1..] == fs[1..] + [f];
    }
  }

  /** Drops what precedes the first STX, as a receiver waiting for a frame does. */
  function SkipNoise(s: seq<byte>): seq<byte> {
    if s == [] || s[0] == STX_ETX then s else SkipNoise(s[1..])
  }

  lemma {:induction false} SkipNoiseAppend(s: seq<byte>, f: Frame)
    requires f.Valid()
    ensures SkipNoise(s + Encode(f)) == SkipNoise(s) + Encode(f)
  {
    if s == [] {
      assert s + Encode(f) == Encode(f);
    } else if s[0] != STX_ETX {
      SkipNoiseAppend(s[1..], f);
      assert (s + Encode(f))[1..] == s[1..] + Encode(f);
    }
  }

  lemma {:induction false} SkipNoiseOnly(s: seq<byte>)
    requires STX_ETX !in s
    ensures SkipNoise(s) == []
  {
    if s != [] {
      SkipNoiseOnly(s[1..]);
    }
  }

  lemma EncodedIsNoNoise(fs: seq<Frame>)
    requires AllValid(fs)
    ensures SkipNoise(EncodeAll(fs)) == EncodeAll(fs)
  {
    if fs != [] {
      assert EncodeAll(fs)[0] == STX_ETX;
    }
  }
}
