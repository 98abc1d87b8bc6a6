/** Thread id syntax of the remote protocol (bin/debugserver/util.cc). */
module ThreadIds {
  import opened Prelude
  import Hex

  /** The value of a text of hex digits, most significant first. */
  function HexNumber(digits: string): nat
    requires Hex.IsHex(digits)
  {
    if digits == "" then 0
    else 16 * HexNumber(digits[..|digits| - 1]) + Hex.DigitValue(digits[|digits| - 1]).value
  }

  /** ftl::StringToNumberWithError<int64_t> in base 16: a sign, at least one digit, and a value that fits. */
  function ParseInt64(s: string): Option<int> {
    var negative := s != "" && s[0] == '-';
    var digits := if negative then s[1..] else s;
    if digits == "" || !Hex.IsHex(digits) then None
    else
      var magnitude: int := HexNumber(digits);
      var v := if negative then -magnitude else magnitude;
      if -TWO_63 <= v < TWO_63 then Some(v) else None
  }

  function UpperDigit(d: nat): char
    requires d < 16
  {
    if d < 10 then ('0' as int + d) as char else ('A' as int + d - 10) as char
  }

  /** ftl::NumberToString<mx_koid_t> in base 16. */
  function NumberToHex(n: nat): string {
    if n < 16 then [UpperDigit(n)] else NumberToHex(n / 16) + [UpperDigit(n % 16)]
  }

  lemma {:induction false} HexOfNumber(n: nat)
    ensures NumberToHex(n) != "" && Hex.IsHex(NumberToHex(n))
    ensures HexNumber(NumberToHex(n)) == n
  {
    if n >= 16 {
      HexOfNumber(n / 16);
      var s := NumberToHex(n);
      assert s[..|s| - 1] == NumberToHex(n / 16);
    }
  }

  /** Printed numbers read back when, and only when, they fit the signed type. */
  lemma ParseOfNumber(n: nat)
    ensures ParseInt64(NumberToHex(n)) == if n < TWO_63 then Some(n) else None
  {
    HexOfNumber(n);
    assert Hex.DigitValue('-') == None;
    assert Hex.DigitValue(NumberToHex(n)[0]).Some?;
  }

  /** Each digit is worth sixteen times the next. */
  lemma HexNumberIs(digits: string, c: char)
    requires Hex.IsHex(digits) && Hex.DigitValue(c).Some?
    ensures HexNumber("") == 0 && HexNumber(digits + [c]) == 16 * HexNumber(digits) + Hex.DigitValue(c).value
  {
    hide Hex.DigitValue;
    assert (digits + [c])[..|digits|] == digits;
  }

  /** The digits written are in upper case. */
  lemma NumberToHexIs(n: nat)
    ensures NumberToHex(n) == (if n < 16 then "" else NumberToHex(n / 16)) + ["0123456789ABCDEF"[n % 16]]
  {
    UpperDigits(n % 16);
  }

  lemma UpperDigits(d: nat)
    requires d < 16
    ensures UpperDigit(d) == "0123456789ABCDEF"[d]
  {
  }

  /** `s` writes `v`: an optional sign and at least one digit. */
  predicate Writes(s: string, v: int) {
    || (s != "" && Hex.IsHex(s) && v == HexNumber(s))
    || (|s| > 1 && s[0] == '-' && Hex.IsHex(s[1..]) && v == -(HexNumber(s[1..]) as int))
  }

  lemma ParseInt64Iff(s: string, v: int)
    ensures ParseInt64(s) == Some(v) <==> Writes(s, v) && -0x8000_0000_0000_0000 <= v < 0x8000_0000_0000_0000
  {
    assert Hex.DigitValue('-') == None;
  }

  /** The out parameters of ParseThreadId; pid means nothing without hasPid. */
  datatype ThreadId = ThreadId(hasPid: bool, pid: int, tid: int)

  /**
   * What ParseThreadId recognises. Without a dot all threads of the process are
   * meant; the length the original passes to substr there is unset, so this
   * follows the comment above it.
   */
  function ThreadIdOf(bytes: string): Option<ThreadId> {
    if bytes == "" then None
    else if bytes[0] != 'p' then
      match ParseInt64(bytes)
      case None => None
      case Some(tid) => Some(ThreadId(false, 0, tid))
    else
      var dot := Find(bytes, '.', 1);
      match (ParseInt64(bytes[1..dot]), if dot == |bytes| then Some(-1) else ParseInt64(bytes[dot + 1..]))
      case (Some(pid), Some(tid)) => Some(ThreadId(true, pid, tid))
      case _ => None
  }

  /** 'p' PID, which means all its threads, or 'p' PID '.' TID. */
  predicate WritesBoth(bytes: string, p: string, t: string, id: ThreadId) {
    && ParseInt64(p) == Some(id.pid)
    && ((bytes == "p" + p && id.tid == -1) || (bytes == "p" + p + "." + t && ParseInt64(t) == Some(id.tid)))
  }

  /** The grammar: that, or a TID alone. */
  ghost predicate WritesId(bytes: string, id: ThreadId) {
    if id.hasPid then exists p, t :: WritesBoth(bytes, p, t, id)
    else bytes != "" && bytes[0] != 'p' && id.pid == 0 && ParseInt64(bytes) == Some(id.tid)
  }

  lemma ThreadIdIff(bytes: string, id: ThreadId)
    ensures ThreadIdOf(bytes) == Some(id) <==> WritesId(bytes, id)
  {
    hide ParseInt64, ThreadIdOf, WritesBoth;
    if id.hasPid {
      if ThreadIdOf(bytes) == Some(id) {
        var p, t := ReadIsWritten(bytes, id);
      }
      forall p, t | WritesBoth(bytes, p, t, id)
        ensures ThreadIdOf(bytes) == Some(id)
      {
        WrittenIsRead(bytes, p, t, id);
      }
    } else {
      TidAlone(bytes, id);
    }
  }

  lemma TidAlone(bytes: string, id: ThreadId)
    requires !id.hasPid
    ensures ThreadIdOf(bytes) == Some(id) <==>
            bytes != "" && bytes[0] != 'p' && id.pid == 0 && ParseInt64(bytes) == Some(id.tid)
  {
    hide ParseInt64, Find;
  }

  lemma ReadIsWritten(bytes: string, id: ThreadId) returns (p: string, t: string)
    requires id.hasPid && ThreadIdOf(bytes) == Some(id)
    ensures WritesBoth(bytes, p, t, id)
  {
    hide ParseInt64;
    var dot := Find(bytes, '.', 1);
    p, t := bytes[1..dot], if dot == |bytes| then "" else bytes[dot + 1..];
    assert bytes == "p" + p + if dot == |bytes| then "" else "." + t;
  }

  lemma WrittenIsRead(bytes: string, p: string, t: string, id: ThreadId)
    requires id.hasPid && WritesBoth(bytes, p, t, id)
    ensures ThreadIdOf(bytes) == Some(id)
  {
    hide ParseInt64, Find;
    DotAt(bytes, p);
    assert bytes == "p" + p + "." + t ==> bytes[|p| + 2..] == t;
  }

  lemma DotAt(bytes: string, p: string)
    requires ParseInt64(p).Some? && |bytes| > |p| && bytes[..|p| + 1] == "p" + p
    requires |bytes| == |p| + 1 || bytes[|p| + 1] == '.'
    ensures Find(bytes, '.', 1) == |p| + 1 && bytes[1..|p| + 1] == p
  {
    hide ParseInt64;
    ParsedHasNo(p, '.');
    assert forall j :: 1 <= j < |p| + 1 ==> bytes[j] == ("p" + p)[j] == p[j - 1];
  }

  method ParseThreadId(bytes: string) returns (r: Option<ThreadId>)
    ensures r == ThreadIdOf(bytes)
  {
    if bytes == "" {
      return None;
    }
    if bytes[0] != 'p' {
      var t := ParseInt64(bytes);
      return if t.Some? then Some(ThreadId(false, 0, t.value)) else None;
    }
    var dot := |bytes|;
    var foundDot := false;
    for i := 1 to |bytes|
      invariant !foundDot && dot == |bytes|
      invariant forall j :: 1 <= j < i ==> bytes[j] != '.'
    {
      if bytes[i] != '.' {
        continue;
      }
      dot := i;
      foundDot := true;
      break;
    }
    assert dot == Find(bytes, '.', 1);
    var pid := ParseInt64(bytes[1..dot]);
    if !foundDot {
      return if pid.Some? then Some(ThreadId(true, pid.value, -1)) else None;
    }
    if pid.None? {
      return None;
    }
    var tid := ParseInt64(bytes[dot + 1..]);
    return if tid.Some? then Some(ThreadId(true, pid.value, tid.value)) else None;
  }

  function EncodeThreadId(pid: nat, tid: nat): string {
    "p" + NumberToHex(pid) + "." + NumberToHex(tid)
  }

  lemma HexHasNo(s: string, c: char)
    requires Hex.IsHex(s) && Hex.DigitValue(c).None?
    ensures forall i :: 0 <= i < |s| ==> s[i] != c
  {
  }

  /** Parsing inverts encoding for exactly the ids that fit an int64_t. */
  lemma ParseOfEncode(pid: nat, tid: nat)
    ensures ThreadIdOf(EncodeThreadId(pid, tid)) ==
            if pid < TWO_63 && tid < TWO_63 then Some(ThreadId(true, pid, tid)) else None
  {
    var s, p, t := EncodeThreadId(pid, tid), NumberToHex(pid), NumberToHex(tid);
    HexOfNumber(pid);
    HexHasNo(p, '.');
    assert s == ("p" + p) + ("." + t);
    assert forall j :: 1 <= j < |p| + 1 ==> s[j] == p[j - 1];
    assert s[|p| + 1] == '.';
    assert Find(s, '.', 1) == |p| + 1;
    assert s[1..|p| + 1] == p && s[|p| + 2..] == t;
    ParseOfNumber(pid);
    ParseOfNumber(tid);
  }

  lemma ParsedHasNo(s: string, c: char)
    requires ParseInt64(s).Some? && Hex.DigitValue(c).None? && c != '-'
    ensures forall i :: 0 <= i < |s| ==> s[i] != c
  {
    if s[0] == '-' {
      var digits := s[1..];
      HexHasNo(digits, c);
      assert forall i :: 1 <= i < |s| ==> s[i] == digits[i - 1];
    } else {
      HexHasNo(s, c);
    }
  }

  /** No text that parses as a thread id contains a separator of the action list. */
  lemma ThreadIdHasNoSemicolon(bytes: string)
    requires ThreadIdOf(bytes).Some?
    ensures ';' !in bytes
  {
    hide ParseInt64;
    if bytes[0] != 'p' {
      ParsedHasNo(bytes, ';');
    } else {
      var dot := Find(bytes, '.', 1);
      var pid := bytes[1..dot];
      ParsedHasNo(pid, ';');
      assert forall i :: 1 <= i < dot ==> bytes[i] == pid[i - 1];
      if dot < |bytes| {
        var tid := bytes[dot + 1..];
        ParsedHasNo(tid, ';');
        assert forall i :: dot < i < |bytes| ==> bytes[i] == tid[i - dot - 1];
      }
    }
  }
}
