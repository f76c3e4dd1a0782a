/** The Python text operations the SID string form is built from: `str(n)`, `hex(n)`,
    `int(t)`, `int(t, 16)`, `"0x" in t`, `t.split("-")` and `"-".join(parts)`, for
    non-negative integers and ASCII digit strings. */
module PyText {
  import opened Outcome
  import ByteCodec

  type Base = b: nat | b == 10 || b == 16 witness 10

  /** The value of a digit character in bases up to 16, either case; -1 for any other
      character. */
  function DigitValue(c: char): int {
    if '0' <= c <= '9' then c as int - '0' as int
    else if 'a' <= c <= 'f' then c as int - 'a' as int + 10
    else if 'A' <= c <= 'F' then c as int - 'A' as int + 10
    else -1
  }

  /** The lower-case digit character for d. */
  function DigitChar(d: nat): (c: char)
    requires d < 16
    ensures DigitValue(c) == d
    ensures c != '-' && c != 'x'
  {
    if d < 10 then ('0' as int + d) as char else ('a' as int + d - 10) as char
  }

  predicate AllDigits(t: string, base: Base) {
    forall i :: 0 <= i < |t| ==> 0 <= DigitValue(t[i]) < base
  }

  /** The number the digit string denotes, most significant digit first. */
  function DigitsValue(t: string, base: Base): nat
    requires AllDigits(t, base)
  {
    if t == [] then 0 else DigitsValue(t[..|t| - 1], base) * base + DigitValue(t[|t| - 1])
  }

  /** The digits of n in the given base: lower case, most significant first, no leading
      zero ("0" for zero). */
  function Digits(n: nat, base: Base): (t: string)
    ensures |t| >= 1 && AllDigits(t, base)
    ensures '-' !in t && 'x' !in t
  {
    if n < base then [DigitChar(n)] else Digits(n / base, base) + [DigitChar(n % base)]
  }

  /** Python's `str(n)`. */
  function Str(n: nat): string {
    Digits(n, 10)
  }

  /** Python's `hex(n)`. */
  function Hex(n: nat): string {
    "0x" + Digits(n, 16)
  }

  /** Python's `int(t)` on the strings of ASCII decimal digits; None where it raises
      ValueError. */
  function IntDecimal(t: string): (r: Option<nat>)
    ensures r.Some? <==> |t| >= 1 && AllDigits(t, 10)
  {
    if |t| >= 1 && AllDigits(t, 10) then Some(DigitsValue(t, 10)) else None
  }

  /** Python's `int(t, 16)`: at least one hex digit, of either case, after an optional
      "0x" or "0X" prefix. */
  function IntHex(t: string): (r: Option<nat>)
    ensures r.Some? <==>
      if |t| >= 2 && t[0] == '0' && (t[1] == 'x' || t[1] == 'X') then |t| >= 3 && AllDigits(t[2..], 16)
      else |t| >= 1 && AllDigits(t, 16)
    ensures |t| >= 1 && AllDigits(t, 16) ==> r == Some(DigitsValue(t, 16))
    ensures |t| >= 3 && t[..2] == "0x" && AllDigits(t[2..], 16) ==> r == Some(DigitsValue(t[2..], 16))
    ensures |t| >= 3 && t[..2] == "0X" && AllDigits(t[2..], 16) ==> r == Some(DigitsValue(t[2..], 16))
  {
    var body := if |t| >= 2 && t[0] == '0' && (t[1] == 'x' || t[1] == 'X') then t[2..] else t;
    if |body| >= 1 && AllDigits(body, 16) then Some(DigitsValue(body, 16)) else None
  }

  /** Python's `"0x" in t`. */
  predicate HasHexMarker(t: string) {
    exists i :: 0 <= i < |t| - 1 && t[i] == '0' && t[i + 1] == 'x'
  }

  /** The strings `Digits` produces: non-empty, lower case, no leading zero. */
  predicate Canonical(t: string, base: Base) {
    && |t| >= 1
    && AllDigits(t, base)
    && (forall i :: 0 <= i < |t| ==> DigitChar(DigitValue(t[i])) == t[i])
    && (|t| > 1 ==> t[0] != '0')
  }

  // ---------------------------------------------------------------------------
  // split and join on "-"

  function FirstDash(s: string): (i: nat)
    requires '-' in s
    ensures i < |s| && s[i] == '-' && '-' !in s[..i]
  {
    if s[0] == '-' then 0
    else
      var j := FirstDash(s[1..]);
      assert s[..j + 1] == [s[0]] + s[1..][..j];
      j + 1
  }

  /** Python's `"-".join(parts)`. */
  function Join(parts: seq<string>): string
    requires |parts| >= 1
  {
    if |parts| == 1 then parts[0] else parts[0] + "-" + Join(parts[1..])
  }

  predicate DashFree(parts: seq<string>) {
    forall i :: 0 <= i < |parts| ==> '-' !in parts[i]
  }

  /** Python's `s.split("-")`: the maximal dash-free pieces between dashes, empty
      pieces included, so never an empty list. */
  function Split(s: string): (parts: seq<string>)
    ensures |parts| >= 1 && DashFree(parts)
    ensures Join(parts) == s
    decreases |s|
  {
    if '-' !in s then [s]
    else
      var i := FirstDash(s);
      var rest := Split(s[i + 1..]);
      assert s == s[..i] + "-" + s[i + 1..];
      [s[..i]] + rest
  }

  // ---------------------------------------------------------------------------
  // Lemmas

  /** Splitting a join of dash-free pieces gives the pieces back. */
  lemma {:induction false} SplitJoin(parts: seq<string>)
    requires |parts| >= 1 && DashFree(parts)
    ensures Split(Join(parts)) == parts
  {
    if |parts| > 1 {
      var s := Join(parts);
      var head := parts[0];
      assert s == head + "-" + Join(parts[1..]);
      assert s[|head|] == '-';
      assert s[..|head|] == head;
      assert '-' in s;
      assert FirstDash(s) == |head|;
      assert s[|head| + 1..] == Join(parts[1..]);
      SplitJoin(parts[1..]);
    }
  }

  lemma {:induction false} DigitsRoundTrip(n: nat, base: Base)
    ensures DigitsValue(Digits(n, base), base) == n
  {
    if n >= base {
      var t := Digits(n, base);
      var init := Digits(n / base, base);
      assert t[..|t| - 1] == init;
      DigitsRoundTrip(n / base, base);
    }
  }

  lemma {:induction false} DigitsAreCanonical(n: nat, base: Base)
    ensures Canonical(Digits(n, base), base)
  {
    if n >= base {
      DigitsAreCanonical(n / base, base);
      var t := Digits(n, base);
      assert t[0] == Digits(n / base, base)[0];
    }
  }

  /** A digit string whose first digit is not zero denotes at least that digit. */
  lemma {:induction false} LeadingDigitBound(t: string, base: Base)
    requires |t| >= 1 && AllDigits(t, base)
    ensures DigitsValue(t, base) >= DigitValue(t[0])
  {
    if |t| > 1 {
      var init := t[..|t| - 1];
      assert init[0] == t[0];
      LeadingDigitBound(init, base);
    }
  }

  /** Printing the value of a canonical digit string gives the string back. */
  lemma {:induction false} CanonicalRoundTrip(t: string, base: Base)
    requires Canonical(t, base)
    ensures Digits(DigitsValue(t, base), base) == t
  {
    var n := DigitsValue(t, base);
    if |t| == 1 {
      assert t[..0] == [];
    } else {
      var init := t[..|t| - 1];
      var d := DigitValue(t[|t| - 1]);
      assert init[0] == t[0];
      assert Canonical(init, base) by {
        forall i | 0 <= i < |init| ensures DigitChar(DigitValue(init[i])) == init[i] {
          assert init[i] == t[i];
        }
      }
      LeadingDigitBound(init, base);
      assert DigitValue(t[0]) >= 1;
      var m := DigitsValue(init, base);
      assert n == m * base + d;
      ByteCodec.DivModUnique(n, base, m, d);
      CanonicalRoundTrip(init, base);
      assert t == init + [t[|t| - 1]];
    }
  }

  /** `int(str(n)) == n`. */
  lemma IntOfStr(n: nat)
    ensures IntDecimal(Str(n)) == Some(n)
  {
    DigitsRoundTrip(n, 10);
  }

  /** `int(hex(n), 16) == n`. */
  lemma IntOfHex(n: nat)
    ensures IntHex(Hex(n)) == Some(n)
  {
    var h := Hex(n);
    assert h[2..] == Digits(n, 16);
    DigitsRoundTrip(n, 16);
  }

  /** `hex(n)` contains "0x" and `str(n)` does not. */
  lemma HexMarkers(n: nat)
    ensures HasHexMarker(Hex(n))
    ensures !HasHexMarker(Str(n))
  {
    var h := Hex(n);
    assert h[0] == '0' && h[1] == 'x';
    var s := Str(n);
  }
}
