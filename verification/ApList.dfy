/** Access point records in a scan reply: one byte each for authentication, channel, signal
    strength and name length, then the name (megawifi.c). */
module ApList {
  import opened Bytes

  datatype Ap = Ap(auth: byte, channel: byte, rssi: byte, ssid: seq<byte>) {
    predicate Valid() {
      |ssid| < 256
    }
  }

  function Encode(ap: Ap): seq<byte>
    requires ap.Valid()
  {
    [ap.auth, ap.channel, ap.rssi, |ap.ssid|] + ap.ssid
  }

  /** One record on the wire. */
  lemma RecordFormat()
    ensures Encode(Ap(3, 11, 200, [0x61, 0x62])) == [3, 11, 200, 2, 0x61, 0x62]
    ensures FillNext([3, 11, 200, 2, 0x61, 0x62], 0, 6) == Next(6, 3, 11, 200, 2, 4)
  {
  }

  predicate AllValid(aps: seq<Ap>) {
    forall i :: 0 <= i < |aps| ==> aps[i].Valid()
  }

  function EncodeAll(aps: seq<Ap>): seq<byte>
    requires AllValid(aps)
  {
    if aps == [] then [] else Encode(aps[0]) + EncodeAll(aps[1..])
  }

  /** A char is signed: the bound check takes the name length for a number below 128. */
  function SignedChar(b: byte): int {
    if b < 128 then b else b - 256
  }

  /** `Wild`: the name length would be read behind the end of the data. */
  datatype Answer =
    | End
    | Invalid
    | Wild
    | Next(pos: nat, auth: byte, channel: byte, rssi: byte, ssidLen: byte, ssid: nat)

  /** mw_ap_fill_next. The byte at pos + 3 is read before it is known to be inside. */
  function FillNext(data: seq<byte>, pos: nat, len: nat): Answer
    requires len <= |data|
  {
    if pos >= len then End
    else if pos + 3 >= |data| then Wild
    else if pos + SignedChar(data[pos + 3]) + 4 > len then Invalid
    else Next(pos + 4 + data[pos + 3], data[pos], data[pos + 1], data[pos + 2], data[pos + 3], pos + 4)
  }

  /** The bound check keeps readers inside the data whenever the name length is this byte. */
  ghost predicate CheckSound(length: byte) {
    forall data: seq<byte>, pos: nat, len: nat ::
      len <= |data| && FillNext(data, pos, len).Next? && FillNext(data, pos, len).ssidLen == length ==>
        FillNext(data, pos, len).pos <= len
  }

  /** That is so exactly for lengths below 128. Any other lets a record of four bytes pass for
      one that goes on behind the data. */
  lemma CheckSoundIff(length: byte)
    ensures CheckSound(length) <==> length < 128
  {
    if length >= 128 {
      var data: seq<byte> := [0, 0, 0, length];
      assert FillNext(data, 0, 4) == Next(4 + length, 0, 0, 0, length, 4);
    }
  }

  /** What is behind the first len bytes can change the answer. */
  ghost predicate LooksBehind(pos: nat, len: nat) {
    exists data: seq<byte>, other: seq<byte> ::
      len <= |data| && len <= |other| && data[..len] == other[..len] &&
      FillNext(data, pos, len) != FillNext(other, pos, len) &&
      !FillNext(data, pos, len).Wild? && !FillNext(other, pos, len).Wild?
  }

  /** That is so exactly where one to three bytes are left: the name length is read before it is
      known to be inside, whatever it is. */
  lemma LooksBehindIff(pos: nat, len: nat)
    ensures LooksBehind(pos, len) <==> pos < len < pos + 4
  {
    if pos < len < pos + 4 {
      var data: seq<byte> := Zeros(pos + 3) + [0];
      var other: seq<byte> := Zeros(pos + 3) + [0x80];
      assert data[..len] == other[..len];
      assert FillNext(data, pos, len) == Invalid;
      assert FillNext(other, pos, len).Next?;
    } else {
      forall data: seq<byte>, other: seq<byte> |
        len <= |data| && len <= |other| && data[..len] == other[..len]
        ensures FillNext(data, pos, len) == FillNext(other, pos, len)
      {
        assert forall i :: 0 <= i < len ==> data[i] == data[..len][i] && other[i] == other[..len][i];
      }
    }
  }

  function Zeros(n: nat): seq<byte> {
    seq(n, _ => 0)
  }

  /** The answers to a reader that starts at pos and calls it until it does not move on. Each
      Next moves on, so it ends, also when it has left the data. */
  function Walk(data: seq<byte>, pos: nat, len: nat): seq<Answer>
    requires len <= |data|
    decreases len - pos
  {
    var a := FillNext(data, pos, len);
    [a] + if a.Next? then Walk(data, a.pos, len) else []
  }

  /** The answer describes this access point. */
  predicate Describes(data: seq<byte>, a: Answer, ap: Ap) {
    && a.Next?
    && a.auth == ap.auth && a.channel == ap.channel && a.rssi == ap.rssi
    && a.ssid + a.ssidLen <= |data| && data[a.ssid..a.ssid + a.ssidLen] == ap.ssid
  }

  lemma HeadOfRecord(data: seq<byte>, pos: nat, len: nat, aps: seq<Ap>)
    requires pos <= len <= |data| && aps != [] && AllValid(aps) && data[pos..len] == EncodeAll(aps)
    ensures var next := pos + 4 + |aps[0].ssid|;
            && Describes(data, FillNext(data, pos, len), aps[0])
            && FillNext(data, pos, len).pos == next <= len
            && data[next..len] == EncodeAll(aps[1..])
  {
    var ap := aps[0];
    var rest := data[pos..len];
    var n := 4 + |ap.ssid|;
    assert rest[..n] == Encode(ap) && rest[n..] == EncodeAll(aps[1..]);
    assert forall i :: pos <= i < pos + n ==> data[i] == rest[..n][i - pos];
    assert data[pos + 4..pos + n] == rest[..n][4..] == ap.ssid;
    assert data[pos + n..len] == rest[n..];
  }

  lemma WalkOne(data: seq<byte>, pos: nat, len: nat)
    requires len <= |data| && FillNext(data, pos, len).Next?
    ensures Walk(data, pos, len) == [FillNext(data, pos, len)] + Walk(data, FillNext(data, pos, len).pos, len)
  {
  }

  /** The walk inverts the encoding: over records with names of any length up to 255, it
      describes each in order and then answers 0. */
  lemma {:induction false} WalkInverts(data: seq<byte>, pos: nat, len: nat, aps: seq<Ap>)
    requires pos <= len <= |data| && AllValid(aps) && data[pos..len] == EncodeAll(aps)
    ensures |Walk(data, pos, len)| == |aps| + 1
    ensures forall i :: 0 <= i < |aps| ==> Describes(data, Walk(data, pos, len)[i], aps[i])
    ensures Walk(data, pos, len)[|aps|] == End
    decreases |aps|
  {
    hide Encode;
    if aps != [] {
      HeadOfRecord(data, pos, len, aps);
      hide EncodeAll, FillNext, Walk;
      var next := FillNext(data, pos, len).pos;
      WalkInverts(data, next, len, aps[1..]);
      WalkOne(data, pos, len);
      forall i | 0 <= i < |aps|
        ensures Describes(data, Walk(data, pos, len)[i], aps[i])
      {
        if i > 0 {
          assert Describes(data, Walk(data, next, len)[i - 1], aps[1..][i - 1]);
        }
      }
    }
  }
}
