/** The opening handshake of the debug channel (daemon/debug/ws_frame.cpp). */
module Handshake {
  import opened Bytes
  import Base64
  import Sha1

  // ---- Request and response -------------------------------------------------------------------

  predicate OccursAt(hay: seq<byte>, needle: seq<byte>, at: nat) {
    at + |needle| <= |hay| && hay[at..at + |needle|] == needle
  }

  /** The first occurrence of `needle` at or after `from`. */
  function Find(hay: seq<byte>, needle: seq<byte>, from: nat): (r: Option<nat>)
    ensures r.Some? ==> from <= r.value && OccursAt(hay, needle, r.value)
    ensures r.Some? ==> forall k :: from <= k < r.value ==> !OccursAt(hay, needle, k)
    ensures r.None? ==> forall k :: from <= k ==> !OccursAt(hay, needle, k)
    decreases |hay| - from
  {
    if from + |needle| > |hay| then None
    else if OccursAt(hay, needle, from) then Some(from)
    else Find(hay, needle, from + 1)
  }

  const CR: byte := 13
  const LF: byte := 10
  const CRLF: seq<byte> := [CR, LF]
  const KEY_HEADER: seq<byte> := Ascii("Sec-WebSocket-Key:")

  predicate IsSpaceOrTab(b: byte) { b == 32 || b == 9 }

  function SkipBlanks(s: seq<byte>): seq<byte> {
    if s != [] && IsSpaceOrTab(s[0]) then SkipBlanks(s[1..]) else s
  }

  function TrimEnd(s: seq<byte>): seq<byte> {
    if s != [] && IsSpaceOrTab(s[|s| - 1]) then TrimEnd(s[..|s| - 1]) else s
  }

  /** The rest of a line, without the blanks around it, if there is anything else. */
  function LineValue(s: seq<byte>): Option<seq<byte>> {
    var value := SkipBlanks(s);
    var crlf := Find(value, CRLF, 0);
    var end := if crlf.Some? then crlf else Find(value, [LF], 0);
    var key := TrimEnd(if end.Some? then value[..end.value] else value);
    if key == [] then None else Some(key)
  }

  /** `parse_request`: the value of the key header, if it is there and not blank. */
  function ParseRequest(request: seq<byte>): Option<seq<byte>> {
    var at := Find(request, KEY_HEADER, 0);
    if at.None? then None else LineValue(request[at.value + |KEY_HEADER|..])
  }

  predicate Blanks(s: seq<byte>) { forall i :: 0 <= i < |s| ==> IsSpaceOrTab(s[i]) }

  lemma {:induction false} SkipBlanksOf(pad: seq<byte>, s: seq<byte>)
    requires Blanks(pad) && (s == [] || !IsSpaceOrTab(s[0]))
    ensures SkipBlanks(pad + s) == s
  {
    if pad == [] {
      assert pad + s == s;
    } else {
      assert (pad + s)[1..] == pad[1..] + s && IsSpaceOrTab(pad[0]);
      SkipBlanksOf(pad[1..], s);
    }
  }

  lemma {:induction false} TrimEndOf(s: seq<byte>, pad: seq<byte>)
    requires Blanks(pad) && (s == [] || !IsSpaceOrTab(s[|s| - 1]))
    ensures TrimEnd(s + pad) == s
  {
    if pad == [] {
      assert s + pad == s;
    } else {
      var n := |pad| - 1;
      assert (s + pad)[..|s| + n] == s + pad[..n] && (s + pad)[|s| + n] == pad[n] && IsSpaceOrTab(pad[n]);
      TrimEndOf(s, pad[..n]);
    }
  }

  lemma LineReads(pad: seq<byte>, key: seq<byte>, gap: seq<byte>, rest: seq<byte>)
    requires Blanks(pad) && Blanks(gap) && key != [] && LF !in key
    requires !IsSpaceOrTab(key[0]) && !IsSpaceOrTab(key[|key| - 1])
    ensures LineValue(pad + (key + gap + CRLF + rest)) == Some(key)
  {
    hide Find, SkipBlanks, TrimEnd;
    var value := key + gap + CRLF + rest;
    assert value[0] == key[0];
    SkipBlanksOf(pad, value);
    assert forall i :: 0 <= i < |gap| ==> gap[i] != LF;
    LineEnds(key + gap, rest);
    assert value[..|key + gap|] == key + gap;
    TrimEndOf(key, gap);
  }

  lemma LineEnds(line: seq<byte>, rest: seq<byte>)
    requires LF !in line
    ensures Find(line + CRLF + rest, CRLF, 0) == Some(|line|)
  {
    hide Find;
    var s := line + CRLF + rest;
    assert s[|line|..|line| + 2] == CRLF && OccursAt(s, CRLF, |line|);
    forall k | 0 <= k < |line| ensures !OccursAt(s, CRLF, k) {
      assert s[k..k + 2][1] == s[k + 1];
      assert s[k + 1] == if k + 1 < |line| then line[k + 1] else CR;
    }
  }

  /** A line with the key header: the key is what stands on it, without the blanks around it, whatever comes before the
      header and after the line. */
  lemma RequestReads(before: seq<byte>, pad: seq<byte>, key: seq<byte>, gap: seq<byte>, rest: seq<byte>)
    requires Find(before + KEY_HEADER + (pad + (key + gap + CRLF + rest)), KEY_HEADER, 0) == Some(|before|)
    requires Blanks(pad) && Blanks(gap) && key != [] && LF !in key
    requires !IsSpaceOrTab(key[0]) && !IsSpaceOrTab(key[|key| - 1])
    ensures ParseRequest(before + KEY_HEADER + (pad + (key + gap + CRLF + rest))) == Some(key)
  {
    hide Find, LineValue, Blanks;
    LineReads(pad, key, gap, rest);
    Behind(before, KEY_HEADER, pad + (key + gap + CRLF + rest));
  }

  lemma Behind(a: seq<byte>, b: seq<byte>, c: seq<byte>)
    ensures (a + b + c)[|a| + |b|..] == c
  {}

  /** Without the header there is no key. */
  lemma RequestWithoutKey(request: seq<byte>)
    requires forall k :: 0 <= k ==> !OccursAt(request, KEY_HEADER, k)
    ensures ParseRequest(request) == None
  {
    hide LineValue;
  }

  const GUID: seq<byte> := Ascii("258EAFA5-E914-47DA-95CA-C5AB0DC85B11")

  function AcceptKey(key: seq<byte>): (r: seq<byte>)
    ensures |r| == 28
  {
    Base64.Encoded(Sha1.Sha1Of(key + GUID))
  }

  method ComputeAcceptKey(key: seq<byte>) returns (r: seq<byte>)
    requires |key| < 0x1000_0000_0000_0000
    ensures r == AcceptKey(key)
  {
    hide Sha1.Sha1Of, Base64.Encoded;
    assert Flatten([key + GUID]) == key + GUID;
    var hash := Sha1.HashParts([key + GUID]);
    r := Base64.Encode(hash);
  }

  const STATUS_LINES := Ascii("HTTP/1.1 101 Switching Protocols") + CRLF + Ascii("Upgrade: websocket") + CRLF
                        + Ascii("Connection: Upgrade") + CRLF + Ascii("Sec-WebSocket-Accept: ")

  function Response(key: seq<byte>): (r: seq<byte>)
    ensures 4 <= |r| <= 1000
  {
    STATUS_LINES + AcceptKey(key) + CRLF + CRLF
  }
}
