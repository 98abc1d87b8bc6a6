/** Command arguments and replies built by loops in bin/debugserver/cmd-handler.cc. */
module CommandText {
  import opened Prelude
  import Hex
  import ThreadIds

  function Chars(bytes: seq<Byte>): string {
    seq(|bytes|, i requires 0 <= i < |bytes| => bytes[i] as char)
  }

  /** The argument vector of a vRun packet: each piece decoded, a bad one read as "". */
  function ArgvOf(pieces: seq<string>): seq<string> {
    seq(|pieces|, i requires 0 <= i < |pieces| => Chars(Hex.DecodeBytes(pieces[i])))
  }

  method BuildArgvFor_vRun(packet: string) returns (argv: seq<string>)
    ensures argv == ArgvOf(Pieces(packet, ';'))
  {
    hide Pieces, Hex.DecodeBytes;
    argv := [];
    var len := |packet|;
    var s := 0;
    assert packet[0..] == packet;
    ghost var pieces, done := Pieces(packet, ';'), [];
    while s < len
      invariant 0 <= s <= len
      invariant pieces == done + Pieces(packet[s..], ';')
      invariant argv == ArgvOf(done)
    {
      var semi := Find(packet, ';', s);
      PiecesFrom(packet, ';', s, semi);
      FirstPiece("", ';');
      var arg := Hex.DecodeByteArrayString(packet[s..semi]);
      argv := argv + [Chars(arg)];
      done := done + [packet[s..semi]];
      s := if semi == len then len else semi + 1;
      assert packet[len..] == "";
    }
    assert packet[s..] == "";
    FirstPiece("", ';');
  }

  /** A C string: every character is one byte. */
  ghost predicate Octets(s: string) {
    forall i :: 0 <= i < |s| ==> s[i] as int < 256
  }

  function Bytes(s: string): seq<Byte>
    requires Octets(s)
  {
    seq(|s|, i requires 0 <= i < |s| => s[i] as int)
  }

  /** How a debugger writes an argument vector. */
  function HexParts(argv: seq<string>): seq<string>
    requires forall i :: 0 <= i < |argv| ==> Octets(argv[i])
  {
    seq(|argv|, i requires 0 <= i < |argv| => Hex.EncodeBytes(Bytes(argv[i])))
  }

  /** Exactly an empty last argument is lost on the way. */
  lemma ArgvRoundTrip(argv: seq<string>)
    requires forall i :: 0 <= i < |argv| ==> Octets(argv[i])
    ensures ArgvOf(Pieces(Join(HexParts(argv), ';'), ';')) ==
            if LastIsEmpty(argv) then argv[..|argv| - 1] else argv
  {
    var parts := HexParts(argv);
    forall i | 0 <= i < |parts|
      ensures ';' !in parts[i]
      ensures Chars(Hex.DecodeBytes(parts[i])) == argv[i]
    {
      Hex.DecodeOfEncode(Bytes(argv[i]));
      ThreadIds.HexHasNo(parts[i], ';');
    }
    PiecesOfJoin(parts, ';');
    assert LastIsEmpty(parts) <==> LastIsEmpty(argv);
  }

  function PrefixOf(packet: string): string {
    packet[..Find(packet, ':', 0)]
  }

  function ParamsOf(packet: string): string {
    var colon := Find(packet, ':', 0);
    if colon == |packet| then "" else packet[colon + 1..]
  }

  /** The prefix before the first ':' and the parameters after it. */
  method ExtractParameters(packet: string) returns (prefix: string, params: string)
    requires packet != ""
    ensures prefix == PrefixOf(packet) && params == ParamsOf(packet)
    ensures ':' !in prefix
    ensures (packet == prefix && params == "") || packet == prefix + ":" + params
  {
    var colon := 0;
    while colon < |packet|
      invariant 0 <= colon <= |packet|
      invariant forall i :: 0 <= i < colon ==> packet[i] != ':'
    {
      if packet[colon] == ':' {
        break;
      }
      colon := colon + 1;
    }
    FindIs(packet, ':', colon);
    prefix := packet[..colon];
    params := if colon == |packet| then "" else packet[colon + 1..];
  }

  /** StringToNumberWithError<uint64_t> in base 16. */
  function ParseUint64(s: string): (r: Option<nat>)
    ensures r.Some? ==> r.value < TWO_64
  {
    if s == "" || !Hex.IsHex(s) || ThreadIds.HexNumber(s) >= TWO_64 then None else Some(ThreadIds.HexNumber(s))
  }

  lemma ParseUint64Iff(s: string, v: nat)
    ensures ParseUint64(s) == Some(v) <==>
            s != "" && Hex.IsHex(s) && ThreadIds.HexNumber(s) == v && v < 0x1_0000_0000_0000_0000
  {
  }

  /** The ids of the live threads as they appear in a qfThreadInfo reply. */
  function IdTexts(ids: seq<nat>): seq<string> {
    seq(|ids|, i requires 0 <= i < |ids| => ThreadIds.NumberToHex(ids[i]))
  }

  function Lengths(texts: seq<string>): nat {
    if texts == [] then 0 else Lengths(texts[..|texts| - 1]) + |texts[|texts| - 1]|
  }

  lemma {:induction false} JoinLength(texts: seq<string>, sep: char)
    requires texts != []
    ensures |Join(texts, sep)| == Lengths(texts) + |texts| - 1
    decreases |texts|
  {
    var n := |texts| - 1;
    Hex.JoinFrom(texts, sep, n);
    assert texts[n..] == [texts[n]];
    ClosedLength(texts[..n], sep);
  }

  lemma {:induction false} ClosedLength(texts: seq<string>, sep: char)
    ensures |Hex.Closed(texts, sep)| == Lengths(texts) + |texts|
    decreases |texts|
  {
    if texts != [] {
      ClosedLength(texts[..|texts| - 1], sep);
    }
  }

  /** HandleQueryThreadInfo for the first query of a sequence. */
  method BuildThreadInfo(ids: seq<nat>) returns (reply: string)
    ensures reply == if ids == [] then "l" else "m" + Join(IdTexts(ids), ',')
  {
    var texts: seq<string> := [];
    var bufSize := 0;
    for i := 0 to |ids|
      invariant texts == IdTexts(ids[..i])
      invariant bufSize == Lengths(texts)
    {
      var id := ThreadIds.NumberToHex(ids[i]);
      bufSize := bufSize + |id|;
      assert (texts + [id])[..|texts|] == texts;
      texts := texts + [id];
    }
    assert ids[..|ids|] == ids;
    if texts == [] {
      return "l";
    }
    bufSize := bufSize + |texts|;
    JoinLength(texts, ',');
    var buffer := new char[bufSize];
    buffer[0] := 'm';
    var filled := Hex.JoinStrings(texts, ',', buffer, 1, bufSize - 1);
    assert filled == bufSize - 1;
    assert buffer[..] == "m" + Join(texts, ',');
    reply := buffer[..];
  }

  /** Every id can be read back from the reply, in order. */
  lemma ThreadInfoReadsBack(ids: seq<nat>)
    requires ids != []
    ensures Pieces(Join(IdTexts(ids), ','), ',') == IdTexts(ids)
    ensures forall i :: 0 <= i < |ids| ==>
                          Hex.IsHex(IdTexts(ids)[i]) && ThreadIds.HexNumber(IdTexts(ids)[i]) == ids[i]
  {
    var texts := IdTexts(ids);
    forall i | 0 <= i < |ids|
      ensures ',' !in texts[i] && texts[i] != ""
      ensures Hex.IsHex(texts[i]) && ThreadIds.HexNumber(texts[i]) == ids[i]
    {
      ThreadIds.HexOfNumber(ids[i]);
      ThreadIds.HexHasNo(texts[i], ',');
    }
    PiecesOfJoin(texts, ',');
  }
}
