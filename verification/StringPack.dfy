/** Lists of C strings packed into one buffer, each with its terminator: concat_strings and
    concat_kv_pairs (util.c), tokens_get and the SNTP payload (megawifi.c). */
module StringPack {
  import opened IpText

  /** A C string has no terminator inside. */
  predicate IsCString(s: string) {
    '\0' !in s
  }

  predicate AllCStrings(strs: seq<string>) {
    forall i :: 0 <= i < |strs| ==> IsCString(strs[i])
  }

  function Pack(strs: seq<string>): string {
    if strs == [] then "" else Pack(strs[..|strs| - 1]) + strs[|strs| - 1] + "\0"
  }

  /** The strings behind an array of pointers, if none of them is NULL. */
  predicate NoNull(strs: seq<Option<string>>) {
    forall i :: 0 <= i < |strs| ==> strs[i].Some?
  }

  function Targets(strs: seq<Option<string>>): seq<string>
    requires NoNull(strs)
  {
    seq(|strs|, i requires 0 <= i < |strs| => strs[i].value)
  }

  /** What either function returns: the packed length if all can be packed, else 0. */
  function PackedLen(strs: seq<Option<string>>, maxLen: nat): nat {
    if NoNull(strs) && |Pack(Targets(strs))| <= maxLen then |Pack(Targets(strs))| else 0
  }

  lemma PackOneMore(strs: seq<string>, s: string)
    ensures Pack(strs + [s]) == Pack(strs) + s + "\0"
  {
    assert (strs + [s])[..|strs|] == strs;
  }

  lemma {:induction false} PackConcat(a: seq<string>, b: seq<string>)
    ensures Pack(a + b) == Pack(a) + Pack(b)
  {
    if b == [] {
      assert a + b == a;
    } else {
      var n := |b| - 1;
      PackConcat(a, b[..n]);
      assert (a + b)[..|a + b| - 1] == a + b[..n];
    }
  }

  lemma TargetsPrefix(strs: seq<Option<string>>, i: nat)
    requires i < |strs| && NoNull(strs[..i]) && strs[i].Some?
    ensures NoNull(strs[..i + 1])
    ensures Targets(strs[..i + 1]) == Targets(strs[..i]) + [strs[i].value]
    ensures Pack(Targets(strs[..i + 1])) == Pack(Targets(strs[..i])) + strs[i].value + "\0"
  {
    assert strs[..i + 1] == strs[..i] + [strs[i]];
    PackOneMore(Targets(strs[..i]), strs[i].value);
  }

  lemma NoNullPrefix(strs: seq<Option<string>>, i: nat)
    requires i <= |strs| && NoNull(strs)
    ensures NoNull(strs[..i])
  {
    assert forall j :: 0 <= j < i ==> strs[..i][j] == strs[j];
  }

  /** Packing more can only take more room. */
  lemma {:induction false} PrefixFits(strs: seq<Option<string>>, i: nat)
    requires i <= |strs| && NoNull(strs)
    ensures NoNull(strs[..i]) && |Pack(Targets(strs[..i]))| <= |Pack(Targets(strs))|
    decreases |strs| - i
  {
    NoNullPrefix(strs, i);
    if i == |strs| {
      assert strs[..i] == strs;
    } else {
      PrefixFits(strs, i + 1);
      TargetsPrefix(strs, i);
    }
  }

  /** memcpy of a string with its terminator, behind what is there up to `at`. */
  method CopyString(output: array<char>, at: nat, s: string) returns (pos: nat)
    requires at + |s| + 1 <= output.Length
    modifies output
    ensures pos == at + |s| + 1
    ensures output[..pos] == old(output[..at]) + s + "\0"
    ensures forall j :: pos <= j < output.Length ==> output[j] == old(output[j])
  {
    forall i | 0 <= i < |s| {
      output[at + i] := s[i];
    }
    output[at + |s|] := '\0';
    pos := at + |s| + 1;
  }

  /** concat_strings */
  method ConcatStrings(strs: seq<Option<string>>, output: array<char>, maxLen: nat) returns (pos: nat)
    requires maxLen <= output.Length
    modifies output
    ensures pos == PackedLen(strs, maxLen)
    ensures NoNull(strs) && |Pack(Targets(strs))| <= maxLen ==> output[..pos] == Pack(Targets(strs))
    ensures forall j :: maxLen <= j < output.Length ==> output[j] == old(output[j])
  {
    hide Pack;
    PackNothing();
    pos := 0;
    assert Targets(strs[..0]) == [];
    for i := 0 to |strs|
      invariant NoNull(strs[..i]) && pos <= maxLen
      invariant output[..pos] == Pack(Targets(strs[..i]))
      invariant forall j :: maxLen <= j < output.Length ==> output[j] == old(output[j])
    {
      if strs[i] == None {
        return 0;
      }
      var s := strs[i].value;
      TargetsPrefix(strs, i);
      if pos + |s| + 1 > maxLen {
        if NoNull(strs) {
          PrefixFits(strs, i + 1);
        }
        return 0;
      }
      pos := CopyString(output, pos, s);
    }
    assert strs[..|strs|] == strs;
  }

  /** key 0, value 0, key 1, value 1, ... */
  function Interleave<T>(key: seq<T>, value: seq<T>): (r: seq<T>)
    requires |key| == |value|
    ensures |r| == 2 * |key|
    ensures forall i :: 0 <= i < |key| ==> r[2 * i] == key[i] && r[2 * i + 1] == value[i]
  {
    if key == [] then []
    else
      var n := |key| - 1;
      Interleave(key[..n], value[..n]) + [key[n], value[n]]
  }

  lemma PairsPrefix(key: seq<Option<string>>, value: seq<Option<string>>, i: nat)
    requires |key| == |value| && i < |key|
    requires NoNull(Interleave(key[..i], value[..i])) && key[i].Some? && value[i].Some?
    ensures var now := Interleave(key[..i + 1], value[..i + 1]);
            && NoNull(now)
            && Pack(Targets(now)) == Pack(Targets(Interleave(key[..i], value[..i]))) +
                                     key[i].value + "\0" + value[i].value + "\0"
  {
    var was := Interleave(key[..i], value[..i]);
    var now := Interleave(key[..i + 1], value[..i + 1]);
    assert key[..i + 1][..i] == key[..i] && value[..i + 1][..i] == value[..i];
    assert now == was + [key[i], value[i]];
    assert Targets(now) == Targets(was) + [key[i].value] + [value[i].value];
    PackOneMore(Targets(was), key[i].value);
    PackOneMore(Targets(was) + [key[i].value], value[i].value);
  }

  lemma {:induction false} InterleavePrefix<T>(key: seq<T>, value: seq<T>, i: nat)
    requires |key| == |value| && i <= |key|
    ensures Interleave(key, value)[..2 * i] == Interleave(key[..i], value[..i])
    decreases |key|
  {
    var n := |key| - 1;
    if i == |key| {
      assert key[..i] == key && value[..i] == value;
    } else {
      InterleavePrefix(key[..n], value[..n], i);
      assert key[..n][..i] == key[..i] && value[..n][..i] == value[..i];
      assert Interleave(key, value)[..2 * i] == Interleave(key[..n], value[..n])[..2 * i];
    }
  }

  /** A pair that is missing or does not fit makes the whole list fail. */
  lemma PairFails(key: seq<Option<string>>, value: seq<Option<string>>, i: nat, maxLen: nat)
    requires |key| == |value| && i < |key|
    requires key[i] == None || value[i] == None ||
             (NoNull(Interleave(key[..i + 1], value[..i + 1])) &&
              |Pack(Targets(Interleave(key[..i + 1], value[..i + 1])))| > maxLen)
    ensures var strs := Interleave(key, value); !(NoNull(strs) && |Pack(Targets(strs))| <= maxLen)
  {
    hide Pack, Interleave;
    var strs := Interleave(key, value);
    assert strs[2 * i] == key[i] && strs[2 * i + 1] == value[i];
    if NoNull(strs) {
      InterleavePrefix(key, value, i + 1);
      PrefixFits(strs, 2 * i + 2);
    }
  }

  /** concat_kv_pairs: succeeds, and writes, exactly as concat_strings does on the keys and
      values in turn. */
  method ConcatKvPairs(key: seq<Option<string>>, value: seq<Option<string>>, output: array<char>, maxLen: nat)
      returns (pos: nat)
    requires |key| == |value| && maxLen <= output.Length
    modifies output
    ensures pos == PackedLen(Interleave(key, value), maxLen)
    ensures var strs := Interleave(key, value);
            NoNull(strs) && |Pack(Targets(strs))| <= maxLen ==> output[..pos] == Pack(Targets(strs))
    ensures forall j :: maxLen <= j < output.Length ==> output[j] == old(output[j])
  {
    hide Pack, Interleave;
    pos := 0;
    assert Interleave(key[..0], value[..0]) == [] && Pack([]) == "" && Targets([]) == [] by { PackNothing(); }
    for i := 0 to |key|
      invariant NoNull(Interleave(key[..i], value[..i])) && pos <= maxLen
      invariant output[..pos] == Pack(Targets(Interleave(key[..i], value[..i])))
      invariant forall j :: maxLen <= j < output.Length ==> output[j] == old(output[j])
    {
      if key[i] == None || value[i] == None {
        PairFails(key, value, i, maxLen);
        return 0;
      }
      var k, v := key[i].value, value[i].value;
      PairsPrefix(key, value, i);
      if pos + (|k| + 1) + (|v| + 1) > maxLen {
        PairFails(key, value, i, maxLen);
        return 0;
      }
      pos := CopyString(output, pos, k);
      pos := CopyString(output, pos, v);
    }
    assert key[..|key|] == key && value[..|value|] == value;
  }

  lemma PackNothing()
    ensures Pack([]) == "" && Targets([]) == []
    ensures Interleave<Option<string>>([], []) == []
  {
  }

  // ------------------------------------------------------------- tokens_get

  /** Where string k of a packed list starts. */
  function Offset(strs: seq<string>, k: nat): nat
    requires k <= |strs|
  {
    |Pack(strs[..k])|
  }

  predicate Tokens(strs: seq<string>) {
    forall i :: 0 <= i < |strs| ==> strs[i] != "" && IsCString(strs[i])
  }

  /** strlen at p, for text that has a terminator from p on. */
  method StrLen(text: string, p: nat) returns (len: nat)
    requires p <= |text| && '\0' in text[p..]
    ensures p + len < |text| && text[p + len] == '\0' && '\0' !in text[p..p + len]
  {
    len := 0;
    while text[p + len] != '\0'
      invariant p + len < |text| && '\0' in text[p + len..] && '\0' !in text[p..p + len]
      decreases |text| - len
    {
      assert text[p + len..] == [text[p + len]] + text[p + len + 1..];
      assert text[p..p + len + 1] == text[p..p + len] + [text[p + len]];
      len := len + 1;
    }
  }

  lemma TokenAt(strs: seq<string>, i: nat)
    requires i < |strs|
    ensures Offset(strs, i + 1) == Offset(strs, i) + |strs[i]| + 1 <= |Pack(strs)|
    ensures Pack(strs)[Offset(strs, i)..Offset(strs, i + 1)] == strs[i] + "\0"
  {
    assert strs[..i + 1] == strs[..i] + [strs[i]];
    PackOneMore(strs[..i], strs[i]);
    assert strs == strs[..i + 1] + strs[i + 1..];
    PackConcat(strs[..i + 1], strs[i + 1..]);
    assert Pack(strs)[..Offset(strs, i + 1)] == Pack(strs[..i + 1]);
    assert Pack(strs)[Offset(strs, i)..Offset(strs, i + 1)] == Pack(strs[..i + 1])[Offset(strs, i)..];
  }

  /** What there is to see at the start of token i, or behind the last one. */
  lemma TokenSeen(strs: seq<string>, rest: string, i: nat)
    requires Tokens(strs) && i <= |strs|
    ensures var text := Pack(strs) + "\0" + rest;
            var p := Offset(strs, i);
            && p < |text|
            && (i == |strs| ==> text[p] == '\0' && HasToken(text, p, ""))
            && (i < |strs| ==>
                  text[p] != '\0' && HasToken(text, p, strs[i]) && Offset(strs, i + 1) == p + |strs[i]| + 1)
  {
    hide Pack;
    var text := Pack(strs) + "\0" + rest;
    var p := Offset(strs, i);
    if i == |strs| {
      assert strs[..i] == strs;
    } else {
      TokenAt(strs, i);
      var q := Offset(strs, i + 1);
      assert text[p..q] == Pack(strs)[p..q] == strs[i] + "\0";
      assert text[p] == text[p..q][0] == strs[i][0];
      assert text[q - 1] == text[p..q][q - 1 - p];
      assert text[p..q - 1] == text[p..q][..q - 1 - p] == strs[i];
    }
  }

  /** The text has the string, with its terminator, at p. */
  predicate HasToken(text: string, p: nat, s: string) {
    p + |s| < |text| && text[p..p + |s|] == s && text[p + |s|] == '\0'
  }

  /** String k of the list, or the empty one behind the last. */
  function TokenOf(strs: seq<string>, k: nat): string {
    if k < |strs| then strs[k] else ""
  }

  /** tokens_get inverts concat_strings: for non-empty strings packed and followed by an empty
      one, it returns how many there are, at most `max`, and points to each of them and to the
      empty one if there is room for it. What is behind that one makes no difference. */
  method TokensGet(text: string, max: nat, ghost strs: seq<string>, ghost rest: string)
      returns (n: nat, token: seq<nat>)
    requires Tokens(strs) && text == Pack(strs) + "\0" + rest && max >= 1
    ensures n == (if |strs| < max then |strs| else max)
    ensures |token| == if |strs| < max then |strs| + 1 else max
    ensures forall k :: 0 <= k < |token| ==>
              k <= |strs| && token[k] == Offset(strs, k) && HasToken(text, token[k], TokenOf(strs, k))
  {
    hide Pack, Offset, HasToken;
    assert Offset(strs, 0) == 0 by { FirstOffset(strs); }
    token := [0];
    var i := 0;
    TokenSeen(strs, rest, 0);
    while i < max - 1 && text[token[i]] != '\0'
      invariant i <= |strs| && i <= max - 1 && |token| == i + 1
      invariant token[i] == Offset(strs, i) < |text|
      invariant text[token[i]] != '\0' <==> i < |strs|
      invariant forall k :: 0 <= k <= i ==> token[k] == Offset(strs, k) && HasToken(text, token[k], TokenOf(strs, k))
    {
      TokenSeen(strs, rest, i + 1);
      var len := StrLenAt(text, token[i], strs[i]);
      TokenSeen(strs, rest, i);
      token := token + [token[i] + len + 1];
      i := i + 1;
    }
    n := i;
    if text[token[i]] != '\0' {
      n := n + 1;
    }
  }

  lemma FirstOffset(strs: seq<string>)
    ensures Offset(strs, 0) == 0
  {
  }

  method StrLenAt(text: string, p: nat, ghost s: string) returns (len: nat)
    requires HasToken(text, p, s) && IsCString(s)
    ensures len == |s|
  {
    assert text[p..][|s|] == '\0';
    len := StrLen(text, p);
    assert forall j :: p <= j < p + |s| ==> text[j] == text[p..p + |s|][j - p];
    assert forall j :: p <= j < p + len ==> text[j] == text[p..p + len][j - p];
  }

  /** The C string behind a pointer. */
  method StringAt(text: string, p: nat, ghost s: string) returns (r: string)
    requires HasToken(text, p, s) && IsCString(s)
    ensures r == s
  {
    var len := StrLenAt(text, p, s);
    r := text[p..p + len];
  }

  // ----------------------------------------------------------- SNTP settings

  /** The servers that are set: those before the first NULL or empty one. */
  function UsedServers(server: seq<Option<string>>): seq<string> {
    if server == [] || server[0] == None || server[0].value == "" then []
    else [server[0].value] + UsedServers(server[1..])
  }

  lemma UsedOneMore(server: seq<Option<string>>, i: nat)
    requires i < |server| && server[i].Some? && server[i].value != ""
    ensures UsedServers(server[i..]) == [server[i].value] + UsedServers(server[i + 1..])
  {
    assert server[i..][1..] == server[i + 1..];
  }

  lemma NoMoreUsed(server: seq<Option<string>>, i: nat)
    requires i <= |server| && (i == |server| || server[i] == None || server[i].value == "")
    ensures UsedServers(server[i..]) == []
  {
  }

  /** The payload mw_sntp_cfg_set builds: time zone, servers, and an empty string. */
  method SntpPayload(tz: string, server: seq<Option<string>>) returns (data: string)
    requires |server| == 3
    ensures data == Pack([tz] + UsedServers(server)) + "\0"
  {
    hide Pack, UsedServers;
    data := tz + "\0";
    PackOneMore([], tz);
    PackNothing();
    ghost var done: seq<string> := [];
    assert [] + [tz] == [tz] == [tz] + done && "" + tz + "\0" == data;
    assert server[0..] == server;
    var i := 0;
    while i < 3 && server[i].Some? && server[i].value != ""
      invariant 0 <= i <= 3
      invariant data == Pack([tz] + done) && done + UsedServers(server[i..]) == UsedServers(server)
    {
      UsedOneMore(server, i);
      assert [tz] + (done + [server[i].value]) == ([tz] + done) + [server[i].value];
      PackOneMore([tz] + done, server[i].value);
      data := data + server[i].value + "\0";
      done := done + [server[i].value];
      i := i + 1;
    }
    NoMoreUsed(server, i);
    assert done + [] == done;
    data := data + "\0";
  }

  /** What mw_sntp_cfg_get makes of a reply with these strings. */
  function ServersOf(strs: seq<string>): (r: seq<Option<string>>)
    ensures |r| == 3
  {
    seq(3, i requires 0 <= i => if i + 1 <= |strs| then Some(TokenOf(strs, i + 1)) else None)
  }

  /** mw_sntp_cfg_get, on the module's reply. */
  method SntpParse(text: string, ghost strs: seq<string>, ghost rest: string)
      returns (tz: string, server: seq<Option<string>>)
    requires Tokens(strs) && text == Pack(strs) + "\0" + rest
    ensures tz == TokenOf(strs, 0) && server == ServersOf(strs)
  {
    hide Pack, Offset, HasToken;
    var _, token := TokensGet(text, 4, strs, rest);
    tz := StringAt(text, token[0], TokenOf(strs, 0));
    server := [];
    for i := 0 to 3
      invariant server == ServersOf(strs)[..i]
    {
      if i + 1 < |token| {
        var s := StringAt(text, token[i + 1], TokenOf(strs, i + 1));
        server := server + [Some(s)];
      } else {
        server := server + [None];
      }
    }
  }

  /** Settings written and read back, by a module that replies with what it was sent: the time
      zone is what it was, and so are the servers that are set if and only if the time zone is
      not empty or there are none. An empty one is taken for the end of the list. */
  method SntpRoundTrip(tz: string, server: seq<Option<string>>)
      returns (tzBack: string, serverBack: seq<Option<string>>)
    requires |server| == 3 && IsCString(tz) && AllCStrings(UsedServers(server))
    ensures tzBack == tz
    ensures UsedServers(serverBack) == UsedServers(server) <==> tz != "" || UsedServers(server) == []
  {
    hide Pack;
    var text := SntpPayload(tz, server);
    ghost var used := UsedServers(server);
    UsedAreTokens(server);
    if tz != "" {
      assert text == Pack([tz] + used) + "\0" + "";
      tzBack, serverBack := SntpParse(text, [tz] + used, "");
      ServersComeBack(tz, used);
    } else {
      EmptyInFront(used);
      tzBack, serverBack := SntpParse(text, [], Pack(used) + "\0");
    }
  }

  lemma EmptyInFront(used: seq<string>)
    ensures Pack([""] + used) + "\0" == Pack([]) + "\0" + (Pack(used) + "\0")
  {
    PackConcat([""], used);
    PackOneMore([], "");
    assert [] + [""] == [""];
  }

  lemma ServersComeBack(tz: string, used: seq<string>)
    requires |used| <= 3 && forall i :: 0 <= i < |used| ==> used[i] != ""
    ensures UsedServers(ServersOf([tz] + used)) == used
  {
    var r := ServersOf([tz] + used);
    assert forall i :: 0 <= i < |used| ==> r[i] == Some(used[i]);
    assert |used| < 3 ==> r[|used|] == Some("");
    UsedAre(r, used);
  }

  lemma {:induction false} UsedAre(server: seq<Option<string>>, used: seq<string>)
    requires |used| <= |server|
    requires forall i :: 0 <= i < |used| ==> used[i] != "" && server[i] == Some(used[i])
    requires |used| < |server| ==> server[|used|] == Some("")
    ensures UsedServers(server) == used
    decreases |used|
  {
    if used != [] {
      UsedAre(server[1..], used[1..]);
    }
  }

  lemma {:induction false} UsedAreTokens(server: seq<Option<string>>)
    ensures |UsedServers(server)| <= |server|
    ensures forall i :: 0 <= i < |UsedServers(server)| ==>
              UsedServers(server)[i] != "" && server[i] == Some(UsedServers(server)[i])
    ensures var n := |UsedServers(server)|; n < |server| ==> server[n] == None || server[n] == Some("")
  {
    if server != [] && server[0].Some? && server[0].value != "" {
      UsedAreTokens(server[1..]);
    }
  }
}
