/** Value types and string helpers shared by the other modules. */
module Prelude {

  datatype Option<+T> = None | Some(value: T)

  /** A uint8_t. */
  type Byte = b: int | 0 <= b < 256

  const TWO_31: int := 0x8000_0000
  const TWO_32: int := 0x1_0000_0000
  const TWO_63: int := 0x8000_0000_0000_0000
  const TWO_64: int := 0x1_0000_0000_0000_0000

  /** The parts laid out one after the other with `sep` between neighbours. */
  function Join(parts: seq<string>, sep: char): string {
    if |parts| == 0 then ""
    else if |parts| == 1 then parts[0]
    else parts[0] + [sep] + Join(parts[1..], sep)
  }

  /** StringView::find: the first index of `c` at or after `from`, or |s|. */
  function Find(s: string, c: char, from: nat): (k: nat)
    requires from <= |s|
    ensures from <= k <= |s|
    ensures k < |s| ==> s[k] == c
    ensures forall j :: from <= j < k ==> s[j] != c
    decreases |s| - from
  {
    if from == |s| || s[from] == c then from else Find(s, c, from + 1)
  }

  /**
   * The pieces of `s` between separators, the way the vRun and vCont loops cut
   * them: a final separator closes the last piece instead of opening an empty one.
   */
  function Pieces(s: string, sep: char): seq<string>
    decreases |s|
  {
    if s == "" then []
    else
      var k := Find(s, sep, 0);
      if k == |s| then [s] else [s[..k]] + Pieces(s[k + 1..], sep)
  }

  lemma FindIs(s: string, c: char, k: nat)
    requires k <= |s| && (k < |s| ==> s[k] == c)
    requires forall j :: 0 <= j < k ==> s[j] != c
    ensures Find(s, c, 0) == k
  {
  }

  lemma FirstPiece(s: string, sep: char)
    ensures Pieces("", sep) == []
    ensures s != "" && Find(s, sep, 0) == |s| ==> Pieces(s, sep) == [s]
    ensures Find(s, sep, 0) < |s| ==>
              Pieces(s, sep) == [s[..Find(s, sep, 0)]] + Pieces(s[Find(s, sep, 0) + 1..], sep)
  {
  }

  /** One turn of those loops: the piece that starts at `s` and where the next one starts. */
  lemma PiecesFrom(str: string, sep: char, s: nat, semi: nat)
    requires s < |str| && semi == Find(str, sep, s)
    ensures semi == |str| ==> Pieces(str[s..], sep) == [str[s..semi]]
    ensures semi < |str| ==> Pieces(str[s..], sep) == [str[s..semi]] + Pieces(str[semi + 1..], sep)
  {
    hide Pieces, Find;
    var rest := str[s..];
    FindIs(rest, sep, semi - s);
    FirstPiece(rest, sep);
    assert rest[..semi - s] == str[s..semi];
    if semi < |str| {
      assert rest[semi - s + 1..] == str[semi + 1..];
    } else {
      assert rest == str[s..semi];
    }
  }

  ghost predicate NoneContains(parts: seq<string>, sep: char) {
    forall i :: 0 <= i < |parts| ==> sep !in parts[i]
  }

  function LastIsEmpty(parts: seq<string>): bool {
    |parts| > 0 && parts[|parts| - 1] == ""
  }

  /** Cutting undoes joining, except that an empty last part leaves no trace. */
  lemma {:induction false} PiecesOfJoin(parts: seq<string>, sep: char)
    requires NoneContains(parts, sep)
    ensures Pieces(Join(parts, sep), sep) == if LastIsEmpty(parts) then parts[..|parts| - 1] else parts
    decreases |parts|
  {
    hide Pieces, Find;
    var s := Join(parts, sep);
    if |parts| == 0 {
      FirstPiece(s, sep);
    } else if |parts| == 1 {
      FindIs(s, sep, |s|);
      FirstPiece(s, sep);
      assert [s] == parts;
    } else {
      var rest := parts[1..];
      PiecesOfJoin(rest, sep);
      CutFirst(parts[0], sep, Join(rest, sep));
      if LastIsEmpty(parts) {
        assert [parts[0]] + rest[..|rest| - 1] == parts[..|parts| - 1];
      } else {
        assert [parts[0]] + rest == parts;
      }
    }
  }

  lemma CutFirst(first: string, sep: char, rest: string)
    requires sep !in first
    ensures Pieces(first + [sep] + rest, sep) == [first] + Pieces(rest, sep)
  {
    hide Pieces, Find;
    var s, k := first + [sep] + rest, |first|;
    assert forall j :: 0 <= j < k ==> s[j] == first[j];
    FindIs(s, sep, k);
    FirstPiece(s, sep);
    assert s[..k] == first && s[k + 1..] == rest;
  }

  /** Joining undoes cutting, up to the one final separator that cutting absorbs. */
  lemma {:induction false} JoinOfPieces(s: string, sep: char)
    ensures NoneContains(Pieces(s, sep), sep)
    ensures Pieces(s, sep) == [] <==> s == ""
    ensures s == Join(Pieces(s, sep), sep) || s == Join(Pieces(s, sep), sep) + [sep]
    decreases |s|
  {
    hide Pieces, Find;
    FirstPiece(s, sep);
    var k := Find(s, sep, 0);
    if k < |s| {
      var rest := s[k + 1..];
      JoinOfPieces(rest, sep);
      assert s == s[..k] + [sep] + rest;
      assert Pieces(s, sep)[1..] == Pieces(rest, sep);
      if rest != "" && rest != Join(Pieces(rest, sep), sep) {
        assert s == (s[..k] + [sep] + Join(Pieces(rest, sep), sep)) + [sep];
      }
    }
  }

  /** The n bytes of a number, least significant first. */
  function LittleEndian(w: nat, n: nat): (b: seq<Byte>)
    ensures |b| == n
  {
    if n == 0 then [] else [w % 0x100] + LittleEndian(w / 0x100, n - 1)
  }

  function FromLittleEndian(b: seq<Byte>): (w: nat)
    ensures w < Power256(|b|)
  {
    if b == [] then 0 else b[0] + 0x100 * FromLittleEndian(b[1..])
  }

  /** A number of at most n bytes can be read back. */
  lemma {:induction false} LittleEndianReadsBack(w: nat, n: nat)
    requires w < Power256(n)
    ensures FromLittleEndian(LittleEndian(w, n)) == w
    decreases n
  {
    if n > 0 {
      LittleEndianReadsBack(w / 0x100, n - 1);
      assert LittleEndian(w, n)[1..] == LittleEndian(w / 0x100, n - 1);
    }
  }

  lemma LowAndRest(low: Byte, rest: nat)
    ensures (low + 0x100 * rest) % 0x100 == low && (low + 0x100 * rest) / 0x100 == rest
  {
  }

  /** And every row of bytes is the bytes of the number it reads as. */
  lemma {:induction false} FromLittleEndianReadsBack(b: seq<Byte>)
    ensures LittleEndian(FromLittleEndian(b), |b|) == b
    decreases |b|
  {
    if b != [] {
      hide Power256;
      FromLittleEndianReadsBack(b[1..]);
      LowAndRest(b[0], FromLittleEndian(b[1..]));
      assert b == [b[0]] + b[1..];
    }
  }

  function Power256(n: nat): nat {
    if n == 0 then 1 else 0x100 * Power256(n - 1)
  }

  function Decimal(n: nat): (s: string)
    ensures |s| > 0
  {
    var digit := "0123456789"[n % 10];
    if n < 10 then [digit] else Decimal(n / 10) + [digit]
  }

  lemma DecimalLength(n: nat, digits: nat)
    requires digits > 0 && n < Power10(digits)
    ensures |Decimal(n)| <= digits
    decreases digits
  {
    if n >= 10 {
      assert digits > 1;
      DecimalLength(n / 10, digits - 1);
    }
  }

  function Power10(n: nat): nat {
    if n == 0 then 1 else 10 * Power10(n - 1)
  }

  lemma DecimalOf32(n: nat)
    requires n < TWO_32
    ensures |Decimal(n)| <= 10
  {
    assert Power10(1) == 10;
    assert Power10(2) == 100;
    assert Power10(4) == 10000;
    assert Power10(6) == 1000000;
    assert Power10(8) == 100000000;
    assert Power10(10) == 10000000000;
    DecimalLength(n, 10);
  }

  /** Its last digit, and the digits before it. */
  lemma DecimalIs(n: nat)
    ensures Decimal(n) == (if n < 10 then "" else Decimal(n / 10)) + ["0123456789"[n % 10]]
  {
  }

  /** The least significant byte comes first. */
  lemma LeastFirst(w: nat, n: nat)
    requires n > 0
    ensures LittleEndian(w, n)[0] == w % 0x100 && LittleEndian(w, n)[1..] == LittleEndian(w / 0x100, n - 1)
  {
  }

  /** The first part, a separator, and the rest. */
  lemma JoinIs(part: string, rest: seq<string>, sep: char)
    ensures Join([], sep) == "" && Join([part], sep) == part
    ensures rest != [] ==> Join([part] + rest, sep) == part + [sep] + Join(rest, sep)
  {
    assert ([part] + rest)[1..] == rest;
  }
}
