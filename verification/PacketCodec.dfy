/**
 * Packet framing of the GDB Remote Serial Protocol: FindUnescapedChar and
 * VerifyPacket (bin/debugserver/util.cc) and the framing closure of PostWriteTask
 * (bin/debugserver/server.cc).
 */
module PacketCodec {
  import opened Prelude
  import opened Hex

  const ESCAPE: char := '}'
  const MAX_BUFFER_SIZE: nat := 4096

  /** The check in PostWriteTask: room for the first character, '#' and two digits, with one place to spare. */
  predicate Fits(data: string)
    ensures Fits(data) <==> |data| < 4092
  {
    |data| + 4 < MAX_BUFFER_SIZE
  }

  /** Position i is escaped when the character before it is an escape that is not itself escaped. */
  predicate Escaped(s: string, i: nat)
    requires i <= |s|
  {
    i > 0 && s[i - 1] == ESCAPE && !Escaped(s, i - 1)
  }

  /** How many escape characters stand in a row right before position i. */
  function EscapeRun(s: string, i: nat): nat
    requires i <= |s|
  {
    if i > 0 && s[i - 1] == '}' then 1 + EscapeRun(s, i - 1) else 0
  }

  /** An independent reading of Escaped: an odd run of escape characters comes before. */
  lemma {:induction false} EscapedIffOddRun(s: string, i: nat)
    requires i <= |s|
    ensures Escaped(s, i) <==> EscapeRun(s, i) % 2 == 1
  {
    if i > 0 {
      EscapedIffOddRun(s, i - 1);
    }
  }

  /** `s` holds an occurrence of `c` at i that a scanner looking for `c` stops at. */
  predicate Unescaped(s: string, c: char, i: nat) {
    i < |s| && s[i] == c && c != ESCAPE && !Escaped(s, i)
  }

  predicate HasUnescaped(s: string, c: char) {
    exists i :: 0 <= i < |s| && Unescaped(s, c, i)
  }

  /** The first unescaped `c` at or after `from`, or |s|. */
  function FirstUnescaped(s: string, c: char, from: nat): (k: nat)
    requires from <= |s|
    ensures from <= k <= |s|
    ensures k < |s| ==> Unescaped(s, c, k)
    ensures forall i :: from <= i < k ==> !Unescaped(s, c, i)
    decreases |s| - from
  {
    if from == |s| || Unescaped(s, c, from) then from else FirstUnescaped(s, c, from + 1)
  }

  method FindUnescapedChar(val: char, packet: string) returns (found: bool, index: nat)
    ensures found <==> HasUnescaped(packet, val)
    ensures found ==> index == FirstUnescaped(packet, val, 0) < |packet|
    ensures !found ==> FirstUnescaped(packet, val, 0) == |packet|
  {
    found := false;
    var inEscape := false;
    index := 0;
    while index < |packet|
      invariant 0 <= index <= |packet|
      invariant inEscape == Escaped(packet, index)
      invariant forall i :: 0 <= i < index ==> !Unescaped(packet, val, i)
    {
      if inEscape {
        inEscape := false;
      } else if packet[index] == ESCAPE {
        inEscape := true;
      } else if packet[index] == val {
        assert Unescaped(packet, val, index);
        found := true;
        break;
      }
      index := index + 1;
    }
  }

  /** The byte sum of the payload, modulo 256. */
  function Checksum(data: string): Byte {
    if data == "" then 0
    else (Checksum(data[..|data| - 1]) + data[|data| - 1] as int) % 256
  }

  method ComputeChecksum(data: string) returns (sum: Byte)
    ensures sum == Checksum(data)
  {
    sum := 0;
    for i := 0 to |data|
      invariant sum == Checksum(data[..i])
    {
      sum := (sum + data[i] as int) % 256;
      assert data[..i + 1][..i] == data[..i];
    }
    assert data[..|data|] == data;
  }

  /** The sum of the characters, from the front. */
  function ByteSum(data: string): nat {
    if data == "" then 0 else data[0] as int + ByteSum(data[1..])
  }

  lemma {:induction false} SumOfBoth(a: string, b: string)
    ensures ByteSum(a + b) == ByteSum(a) + ByteSum(b)
    decreases |a|
  {
    if a == "" {
      assert a + b == b;
    } else {
      SumOfBoth(a[1..], b);
      assert (a + b)[1..] == a[1..] + b;
    }
  }

  lemma SumOfOne(c: char)
    ensures ByteSum("") == 0 && ByteSum([c]) == c as int
  {
  }

  /** The checksum kept in one byte is the whole sum, reduced once. */
  lemma {:induction false} ChecksumIsSum(data: string)
    ensures Checksum(data) == ByteSum(data) % 256
    decreases |data|
  {
    hide ByteSum;
    if data == "" {
      SumOfOne('0');
    } else {
      var init, last := data[..|data| - 1], data[|data| - 1];
      ChecksumIsSum(init);
      SumOfBoth(init, [last]);
      SumOfOne(last);
      assert data == init + [last];
    }
  }

  /** Nothing counts 0, a character its code, and two texts what they count together. */
  lemma ChecksumAdds(a: string, b: string, c: char)
    ensures Checksum("") == 0 && Checksum([c]) == c as int % 256
    ensures Checksum(a + b) == (Checksum(a) + Checksum(b)) % 256
  {
    hide Checksum, ByteSum;
    ChecksumIsSum("");
    ChecksumIsSum([c]);
    ChecksumIsSum(a);
    ChecksumIsSum(b);
    ChecksumIsSum(a + b);
    SumOfBoth(a, b);
    SumOfOne(c);
  }

  /** What VerifyPacket returns; VerifyIff says which packets are accepted. */
  function Verify(packet: string): (r: Option<string>) {
    var dollar := FirstUnescaped(packet, '$', 0);
    if dollar == |packet| then None
    else
      var p := packet[dollar..];
      if |p| < 4 then None
      else
        var pound := FirstUnescaped(p, '#', 0);
        if pound == |p| || |p| - (pound - 1) != 4 then None
        else
          var data := p[1..pound];
          if DecodeByte(p[pound + 1], p[pound + 2]) == Some(Checksum(data)) then Some(data) else None
  }

  method VerifyPacket(packet: string) returns (r: Option<string>)
    ensures r == Verify(packet)
  {
    if packet == "" {
      return None;
    }
    var foundDollar, dollar := FindUnescapedChar('$', packet);
    if !foundDollar {
      return None;
    }
    var p := packet[dollar..];
    assert p[0] == '$';
    if |p| < 4 {
      return None;
    }
    var foundPound, pound := FindUnescapedChar('#', p);
    if !foundPound {
      return None;
    }
    var data := p[1..pound];
    if |p| - |data| != 4 {
      return None;
    }
    var received := DecodeByte(p[pound + 1], p[pound + 2]);
    if received.None? {
      return None;
    }
    var local := ComputeChecksum(data);
    if local != received.value {
      return None;
    }
    return Some(data);
  }

  /** A text the frame can carry: the closing '#' is the first one a scanner sees. */
  predicate Carriable(d: string) {
    !HasUnescaped(d, '#') && !Escaped(d, |d|)
  }

  /** The documented packet form, with ignorable bytes before the '$'. */
  predicate Framed(packet: string, junk: string, d: string, high: char, low: char) {
    && packet == junk + "$" + d + "#" + [high, low]
    && !HasUnescaped(junk, '$') && !Escaped(junk, |junk|)
    && Carriable(d)
    && DecodeByte(high, low) == Some(ByteSum(d) % 256)
  }

  lemma {:induction false} EscapedInPrefix(s: string, t: string, i: nat)
    requires i <= |s|
    ensures Escaped(s + t, i) == Escaped(s, i)
  {
    if i > 0 {
      EscapedInPrefix(s, t, i - 1);
    }
  }

  /** Scanning may start right after any character that is not an escape. */
  lemma {:induction false} EscapedAfterLead(lead: char, s: string, i: nat)
    requires lead != ESCAPE && i <= |s|
    ensures Escaped([lead] + s, i + 1) == Escaped(s, i)
  {
    if i > 0 {
      EscapedAfterLead(lead, s, i - 1);
    }
  }

  lemma FirstIs(s: string, c: char, k: nat)
    requires Unescaped(s, c, k)
    requires forall i :: 0 <= i < k ==> !Unescaped(s, c, i)
    ensures FirstUnescaped(s, c, 0) == k
  {
  }

  /** Where the scan for '$' stops. */
  lemma DollarFound(junk: string, rest: string)
    requires !HasUnescaped(junk, '$') && !Escaped(junk, |junk|)
    ensures FirstUnescaped(junk + ("$" + rest), '$', 0) == |junk|
  {
    hide FirstUnescaped;
    var s := junk + ("$" + rest);
    forall i | 0 <= i <= |junk|
      ensures Escaped(s, i) == Escaped(junk, i)
    {
      EscapedInPrefix(junk, "$" + rest, i);
    }
    forall i | 0 <= i < |junk|
      ensures !Unescaped(s, '$', i)
    {
      assert !Unescaped(junk, '$', i) && s[i] == junk[i];
    }
    FirstIs(s, '$', |junk|);
  }

  /** Where the scan for '#' stops after it. */
  lemma PoundFound(d: string, rest: string)
    requires Carriable(d)
    ensures FirstUnescaped("$" + (d + ("#" + rest)), '#', 0) == |d| + 1
  {
    hide FirstUnescaped;
    var t := d + ("#" + rest);
    var p := "$" + t;
    forall i | 0 <= i <= |d|
      ensures Escaped(p, i + 1) == Escaped(d, i)
    {
      EscapedAfterLead('$', t, i);
      EscapedInPrefix(d, "#" + rest, i);
    }
    forall i | 0 <= i < |d| + 1
      ensures !Unescaped(p, '#', i)
    {
      if i > 0 {
        assert !Unescaped(d, '#', i - 1) && p[i] == d[i - 1];
        assert Escaped(p, i) == Escaped(d, i - 1);
      }
    }
    FirstIs(p, '#', |d| + 1);
  }

  lemma FramedVerifies(packet: string, junk: string, d: string, high: char, low: char)
    requires Framed(packet, junk, d, high, low)
    ensures Verify(packet) == Some(d)
  {
    hide FirstUnescaped, Escaped, HasUnescaped, Checksum, ByteSum, DecodeByte;
    var p := "$" + (d + ("#" + [high, low]));
    assert packet == junk + p;
    DollarFound(junk, d + ("#" + [high, low]));
    PoundFound(d, [high, low]);
    ChecksumIsSum(d);
    assert packet[|junk|..] == p;
    assert p[1..|d| + 1] == d;
  }

  /** What stands before the first '$' that counts holds no such '$' and does not end in an escape. */
  lemma JunkIsClean(packet: string, k: nat)
    requires k < |packet| && FirstUnescaped(packet, '$', 0) == k
    ensures !HasUnescaped(packet[..k], '$') && !Escaped(packet[..k], k)
  {
    var junk := packet[..k];
    assert packet == junk + packet[k..];
    forall i | 0 <= i <= k
      ensures Escaped(junk, i) == Escaped(packet, i)
    {
      EscapedInPrefix(junk, packet[k..], i);
    }
    forall i | 0 <= i < k
      ensures !Unescaped(junk, '$', i)
    {
      assert !Unescaped(packet, '$', i) && junk[i] == packet[i];
    }
  }

  /** What stands between '$' and the first '#' that counts can be carried. */
  lemma PayloadIsClean(p: string, d: string, rest: string)
    requires p == "$" + (d + ("#" + rest)) && FirstUnescaped(p, '#', 0) == |d| + 1
    ensures Carriable(d)
  {
    forall i | 0 <= i <= |d|
      ensures Escaped(p, i + 1) == Escaped(d, i)
    {
      EscapedAfterLead('$', d + ("#" + rest), i);
      EscapedInPrefix(d, "#" + rest, i);
    }
    forall i | 0 <= i < |d|
      ensures !Unescaped(d, '#', i)
    {
      assert !Unescaped(p, '#', i + 1) && p[i + 1] == d[i];
    }
  }

  /** The parts of an accepted packet. */
  lemma VerifiedShape(packet: string, d: string)
    requires Verify(packet) == Some(d)
    ensures var k := FirstUnescaped(packet, '$', 0);
            && k < |packet|
            && var p := packet[k..];
               && |p| == |d| + 4 && FirstUnescaped(p, '#', 0) == |d| + 1
               && p == "$" + (d + ("#" + [p[|d| + 2], p[|d| + 3]]))
               && DecodeByte(p[|d| + 2], p[|d| + 3]) == Some(Checksum(d))
  {
    hide Escaped, Checksum, DecodeByte;
    var k := FirstUnescaped(packet, '$', 0);
    var p := packet[k..];
    assert p[0] == '$' && p[|d| + 1] == '#' && p[1..|d| + 1] == d;
    assert p[|d| + 1..] == ['#', p[|d| + 2], p[|d| + 3]];
    assert p == [p[0]] + (p[1..|d| + 1] + p[|d| + 1..]);
  }

  lemma VerifiedIsFramed(packet: string, d: string)
    requires Verify(packet) == Some(d)
    ensures exists junk, high, low :: Framed(packet, junk, d, high, low)
  {
    hide Verify, FirstUnescaped, Escaped, HasUnescaped, Checksum, ByteSum, DecodeByte, Carriable;
    VerifiedShape(packet, d);
    ChecksumIsSum(d);
    var k := FirstUnescaped(packet, '$', 0);
    var junk, p := packet[..k], packet[k..];
    var high, low := p[|d| + 2], p[|d| + 3];
    JunkIsClean(packet, k);
    PayloadIsClean(p, d, [high, low]);
    assert packet == junk + p;
    assert packet == junk + "$" + d + "#" + [high, low];
    assert Framed(packet, junk, d, high, low);
  }

  /** Exactly the documented packets are accepted, each with its own payload. */
  lemma VerifyIff(packet: string, d: string)
    ensures Verify(packet) == Some(d) <==> exists junk, high, low :: Framed(packet, junk, d, high, low)
  {
    if Verify(packet) == Some(d) {
      VerifiedIsFramed(packet, d);
    }
    forall junk, high, low | Framed(packet, junk, d, high, low)
      ensures Verify(packet) == Some(d)
    {
      FramedVerifies(packet, junk, d, high, low);
    }
  }

  /** The bytes PostWriteTask hands to the I/O loop: '%' for a notification, '$' for a packet. */
  function Frame(notify: bool, data: string): string {
    [if notify then '%' else '$'] + data + "#" + EncodeByte(Checksum(data))
  }

  method FillOutBuffer(outBuffer: array<char>, notify: bool, data: string) returns (index: nat)
    requires outBuffer.Length == MAX_BUFFER_SIZE
    requires |data| + 4 < MAX_BUFFER_SIZE
    modifies outBuffer
    ensures index <= MAX_BUFFER_SIZE && outBuffer[..index] == Frame(notify, data)
  {
    index := 0;
    outBuffer[index] := if notify then '%' else '$';
    index := index + 1;
    forall j | 0 <= j < |data| {
      outBuffer[index + j] := data[j];
    }
    assert outBuffer[..1 + |data|] == [if notify then '%' else '$'] + data;
    index := index + |data|;
    outBuffer[index] := '#';
    assert outBuffer[..2 + |data|] == [if notify then '%' else '$'] + data + "#";
    index := index + 1;
    var checksum := ComputeChecksum(data);
    var digits := EncodeByte(checksum);
    outBuffer[index], outBuffer[index + 1] := digits[0], digits[1];
    index := index + 2;
    assert outBuffer[..index] == Frame(notify, data);
  }

  /** A frame: its first character, the payload, '#', and the sum of the payload in two digits. */
  lemma FrameIs(notify: bool, data: string)
    ensures var sum := ByteSum(data) % 256;
            Frame(notify, data) ==
            (if notify then "%" else "$") + data + "#" + ["0123456789abcdef"[sum / 16], "0123456789abcdef"[sum % 16]]
  {
    hide Checksum, ByteSum, EncodeByte;
    ChecksumIsSum(data);
    PairIs('0', '0', Checksum(data));
  }

  /** So the reply OK goes out as it is known, and is accepted. */
  lemma FrameOfOk()
    ensures Frame(false, "OK") == "$OK#9a" && Verify("$OK#9a") == Some("OK")
  {
    hide Frame, Checksum, Verify;
    FrameIs(false, "OK");
    assert "OK" == "O" + "K";
    SumOfBoth("O", "K");
    SumOfOne('O');
    SumOfOne('K');
    PlainIsCarriable("OK");
    VerifyOfFrame("OK");
  }

  /** Verifying undoes '$' framing for exactly the payloads a frame can carry. */
  lemma VerifyOfFrame(d: string)
    ensures Verify(Frame(false, d)) == Some(d) <==> Carriable(d)
    ensures !Carriable(d) ==> Verify(Frame(false, d)) == None
  {
    var check := EncodeByte(Checksum(d));
    var packet := Frame(false, d);
    assert packet == "" + "$" + d + "#" + [check[0], check[1]];
    ChecksumIsSum(d);
    if Carriable(d) {
      FramedVerifies(packet, "", d, check[0], check[1]);
    }
    match Verify(packet)
    case None =>
    case Some(e) =>
      VerifiedIsFramed(packet, e);
      var junk, high, low :| Framed(packet, junk, e, high, low);
      SameFrame(packet, d, check, junk, e, [high, low]);
  }

  /** A packet has one reading only: junk of length 0 forces the payload. */
  lemma SameFrame(packet: string, d: string, check: string, junk: string, e: string, digits: string)
    requires |check| == |digits| == 2
    requires packet == "$" + d + "#" + check
    requires packet == junk + "$" + e + "#" + digits
    requires !HasUnescaped(junk, '$')
    ensures junk == "" && d == e
  {
    if junk != "" {
      assert packet[0] == '$' && junk[0] == '$';
      assert Unescaped(junk, '$', 0);
    }
    assert d == packet[1..|packet| - 3] == e;
  }

  /** Texts without '#' and '}' need no escaping. */
  lemma PlainIsCarriable(d: string)
    requires '#' !in d && ESCAPE !in d
    ensures Carriable(d)
  {
  }
}
