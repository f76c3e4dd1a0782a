/** The security identifier (SID) of src/bonsai/active_directory/sid.py: its string form
    "S-1-<authority>-<sub>-<sub>...", its little-endian packet form (8 header bytes, then
    one 32-bit word per subauthority), the conversions between them and its equality. */
module SidFormat {
  import opened Outcome
  import opened ByteCodec
  import opened PyText
  import opened PyValues

  /** The three fields a SID object holds once constructed; they are never reassigned. */
  datatype Sid = Sid(revision: nat, identifierAuthority: nat, subauthorities: seq<nat>)

  /** The threshold above which `str` prints the authority in hex (strictly above 2^32). */
  const HexThreshold: nat := 0x1_0000_0000

  // ---------------------------------------------------------------------------
  // String form

  /** `int(p, 16)` if p contains "0x", else `int(p)`. */
  function AuthorityValue(p: string): Option<nat> {
    if HasHexMarker(p) then IntHex(p) else IntDecimal(p)
  }

  /** `tuple(int(sub) for sub in ps)`: None as soon as one piece is not a decimal. */
  function ParseDecimals(ps: seq<string>): (r: Option<seq<nat>>)
    ensures r.Some? <==> forall i :: 0 <= i < |ps| ==> IntDecimal(ps[i]).Some?
    ensures r.Some? ==> |r.value| == |ps| && forall i :: 0 <= i < |ps| ==> IntDecimal(ps[i]) == Some(r.value[i])
  {
    if ps == [] then Some([])
    else
      var head := IntDecimal(ps[0]);
      var tail := ParseDecimals(ps[1..]);
      if head.None? then None
      else if tail.None? then
        assert exists i :: 1 <= i < |ps| && IntDecimal(ps[i]).None? by {
          var j :| 0 <= j < |ps[1..]| && IntDecimal(ps[1..][j]).None?;
          assert ps[1..][j] == ps[j + 1];
        }
        None
      else
        var vs := [head.value] + tail.value;
        assert forall i :: 1 <= i < |ps| ==> ps[i] == ps[1..][i - 1];
        Some(vs)
  }

  /** `SID(str_rep=s)` for a string s: split on "-", the first piece must be "S", then the
      revision, the authority and the subauthorities; every failure is ValueError
      (an IndexError for fewer than three pieces is turned into ValueError too). */
  function ParseString(s: string): (r: Result<Sid, PyError>)
    ensures r.Err? ==> r.error == ValueError
    ensures r.Ok? <==>
      var parts := Split(s);
      && |parts| >= 3 && parts[0] == "S"
      && IntDecimal(parts[1]).Some? && AuthorityValue(parts[2]).Some?
      && forall i :: 3 <= i < |parts| ==> IntDecimal(parts[i]).Some?
    ensures r.Ok? ==> |Split(s)| == 3 + |r.value.subauthorities|
    ensures r.Ok? ==> Some(r.value.revision) == IntDecimal(Split(s)[1])
    ensures r.Ok? ==> Some(r.value.identifierAuthority) == AuthorityValue(Split(s)[2])
    ensures r.Ok? ==> forall i :: 0 <= i < |r.value.subauthorities| ==>
                        Some(r.value.subauthorities[i]) == IntDecimal(Split(s)[3 + i])
  {
    var parts := Split(s);
    if parts[0] != "S" || |parts| < 3 then Err(ValueError)
    else
      var revision := IntDecimal(parts[1]);
      var authority := AuthorityValue(parts[2]);
      var rest := parts[3..];
      var subs := ParseDecimals(rest);
      assert forall i :: 3 <= i < |parts| ==> parts[i] == rest[i - 3];
      if revision.None? || authority.None? || subs.None? then Err(ValueError)
      else
        assert forall i :: 0 <= i < |subs.value| ==> IntDecimal(parts[3 + i]) == Some(subs.value[i]) by {
          forall i | 0 <= i < |subs.value| ensures IntDecimal(parts[3 + i]) == Some(subs.value[i]) {
            assert rest[i] == parts[3 + i];
          }
        }
        Ok(Sid(revision.value, authority.value, subs.value))
  }

  function AuthorityText(a: nat): string {
    if a > HexThreshold then Hex(a) else Str(a)
  }

  function DecimalTexts(xs: seq<nat>): (ts: seq<string>)
    ensures |ts| == |xs| && DashFree(ts)
    ensures forall i :: 0 <= i < |xs| ==> ts[i] == Str(xs[i])
  {
    seq(|xs|, i requires 0 <= i < |xs| => Str(xs[i]))
  }

  /** `str(sid)`: the revision printed is always 1; the authority is printed in hex when it
      is above 2^32; an empty subauthority list is printed as a single "0". */
  function ToString(x: Sid): (t: string)
    ensures |t| >= 7 && t[..4] == "S-1-"
  {
    "S-1-" + AuthorityText(x.identifierAuthority) + "-"
      + (if x.subauthorities == [] then "0" else Join(DecimalTexts(x.subauthorities)))
  }

  /** What the string form keeps of a SID: revision 1, and "0" standing for no
      subauthorities. */
  function Normalized(x: Sid): Sid {
    Sid(1, x.identifierAuthority, if x.subauthorities == [] then [0] else x.subauthorities)
  }

  /** The authority piece as `str` prints it: canonical decimal up to 2^32, canonical
      lower-case hex with a "0x" prefix above. */
  predicate CanonicalAuthority(p: string) {
    || (Canonical(p, 10) && DigitsValue(p, 10) <= HexThreshold)
    || (|p| >= 3 && p[..2] == "0x" && Canonical(p[2..], 16) && DigitsValue(p[2..], 16) > HexThreshold)
  }

  /** The strings `str` can print: "S-1-", a canonical authority, and at least one
      canonical decimal subauthority. */
  predicate CanonicalSidString(s: string) {
    var parts := Split(s);
    && |parts| >= 4 && parts[0] == "S" && parts[1] == "1"
    && CanonicalAuthority(parts[2])
    && forall i :: 3 <= i < |parts| ==> Canonical(parts[i], 10)
  }

  // ---------------------------------------------------------------------------
  // Packet form

  /** `SID(bytes_le=data)` for bytes: `<BB6B` on the first 8 bytes (revision, count,
      six authority bytes), then count little-endian words; a short input makes
      `struct.unpack` fail, which becomes ValueError. */
  function ParseBytes(data: seq<Byte>): (r: Result<Sid, PyError>)
    ensures r.Ok? <==> |data| >= 8 && |data| >= 8 + 4 * data[1] as int
    ensures r.Err? ==> r.error == ValueError
    ensures r.Ok? ==>
      && r.value.revision == data[0]
      && r.value.identifierAuthority == UnpackBE(data[2..8])
      && r.value.subauthorities == UnpackU32s(data[8..8 + 4 * data[1] as int])
  {
    var head := Slice(data, 0, 8);
    if |head| != 8 then Err(ValueError)
    else
      var count: nat := head[1];
      var body := Slice(data, 8, 8 + 4 * count);
      if |body| != 4 * count then Err(ValueError)
      else
        assert head[2..8] == data[2..8];
        Ok(Sid(head[0], UnpackBE(head[2..8]), UnpackU32s(body)))
  }

  /** The `bytes_le` property: `struct.pack(">Q", authority)[2:]` keeps the low 48 bits of
      the authority, and the `<BB6B{n}I` pack raises struct.error (not caught) when the
      revision, the count or a subauthority does not fit its field, as `>Q` does for an
      authority of 2^64 or more. */
  function BytesLe(x: Sid): (r: Result<seq<Byte>, PyError>)
    ensures r.Ok? <==>
      && x.revision < 256 && |x.subauthorities| < 256
      && x.identifierAuthority < Pow256(8) && AllU32(x.subauthorities)
    ensures r.Err? ==> r.error == StructError
    ensures r.Ok? ==> |r.value| == 8 + 4 * |x.subauthorities|
  {
    if x.identifierAuthority >= Pow256(8) then Err(StructError)
    else
      var authority := PackBE(x.identifierAuthority, 8)[2..];
      var n := |x.subauthorities|;
      if x.revision >= 256 || n >= 256 || !AllU32(x.subauthorities) then Err(StructError)
      else Ok([x.revision as Byte, n as Byte] + authority + PackU32s(x.subauthorities))
  }

  // ---------------------------------------------------------------------------
  // Construction and comparison

  /** `SID(str_rep, bytes_le)` with at least one argument given: both at once is a
      TypeError, as is a `str_rep` that is not a str or a `bytes_le` that is not bytes. */
  function NewSid(strRep: Option<PyArg>, bytesLe: Option<PyArg>): (r: Result<Sid, PyError>)
    requires strRep.Some? || bytesLe.Some?
    ensures strRep.Some? && bytesLe.Some? ==> r == Err(TypeError)
    ensures strRep.Some? && bytesLe.None? ==>
      r == (if strRep.value.PyStr? then ParseString(strRep.value.text) else Err(TypeError))
    ensures strRep.None? ==>
      r == (if bytesLe.value.PyBytes? then ParseBytes(bytesLe.value.bytes) else Err(TypeError))
  {
    if strRep.Some? && bytesLe.Some? then Err(TypeError)
    else if strRep.Some? then
      match strRep.value
      case PyStr(t) => ParseString(t)
      case _ => Err(TypeError)
    else
      match bytesLe.value
      case PyBytes(b) => ParseBytes(b)
      case _ => Err(TypeError)
  }

  /** The right-hand operand of `==`. */
  datatype Other = OtherSid(sid: Sid) | OtherStr(text: string) | OtherValue

  datatype EqOutcome = Equal(holds: bool) | NotImplemented

  /** `sid == other`: field-wise against a SID, against `str(sid)` for a string, and
      NotImplemented for anything else. */
  function Eq(x: Sid, other: Other): (r: EqOutcome)
    ensures other.OtherValue? <==> r.NotImplemented?
    ensures other.OtherSid? ==> (r.Equal? && r.holds <==> x == other.sid)
    ensures other.OtherStr? ==> (r.Equal? && r.holds <==> ToString(x) == other.text)
  {
    match other
    case OtherSid(y) =>
      Equal(x.revision == y.revision && x.identifierAuthority == y.identifierAuthority
            && x.subauthorities == y.subauthorities)
    case OtherStr(t) => Equal(ToString(x) == t)
    case OtherValue => NotImplemented
  }

  /** `hash(sid)` is `hash(str(sid))`; the model keeps the string that is hashed. */
  function HashKey(x: Sid): string {
    ToString(x)
  }

  // ---------------------------------------------------------------------------
  // Lemmas: string form

  lemma JoinCons(head: string, rest: seq<string>)
    requires |rest| >= 1
    ensures Join([head] + rest) == head + "-" + Join(rest)
  {
    assert ([head] + rest)[1..] == rest;
  }

  /** `str(x)` is the join of its pieces "S", "1", the authority and the subauthorities of
      the normalized SID. */
  lemma ToStringPieces(x: Sid)
    ensures ToString(x) == Join(["S", "1", AuthorityText(x.identifierAuthority)]
                                + DecimalTexts(Normalized(x).subauthorities))
  {
    var a := AuthorityText(x.identifierAuthority);
    var rest := DecimalTexts(Normalized(x).subauthorities);
    if x.subauthorities == [] {
      assert rest == ["0"] by { assert Str(0) == [DigitChar(0)]; }
    }
    JoinPrefix(a, rest);
  }

  /** The join of "S", "1", a and further pieces. */
  lemma JoinPrefix(a: string, rest: seq<string>)
    requires |rest| >= 1
    ensures Join(["S", "1", a] + rest) == "S-1-" + a + "-" + Join(rest)
  {
    ListShape(a, rest);
    JoinChain(a, rest);
    LiteralPrefix(a, Join(rest));
  }

  lemma ListShape(a: string, rest: seq<string>)
    ensures ["S"] + (["1"] + ([a] + rest)) == ["S", "1", a] + rest
  {
  }

  lemma JoinChain(a: string, rest: seq<string>)
    requires |rest| >= 1
    ensures Join(["S"] + (["1"] + ([a] + rest))) == "S" + "-" + ("1" + "-" + (a + "-" + Join(rest)))
  {
    JoinCons(a, rest);
    JoinCons("1", [a] + rest);
    JoinCons("S", ["1"] + ([a] + rest));
  }

  lemma LiteralPrefix(a: string, tail: string)
    ensures "S" + "-" + ("1" + "-" + (a + "-" + tail)) == "S-1-" + a + "-" + tail
  {
  }

  lemma AuthorityTextParses(a: nat)
    ensures AuthorityValue(AuthorityText(a)) == Some(a)
    ensures '-' !in AuthorityText(a)
  {
    HexMarkers(a);
    if a > HexThreshold {
      IntOfHex(a);
      assert Hex(a)[2..] == Digits(a, 16);
    } else {
      IntOfStr(a);
    }
  }

  lemma ParseDecimalsOfTexts(xs: seq<nat>)
    ensures ParseDecimals(DecimalTexts(xs)) == Some(xs)
  {
    var r := ParseDecimals(DecimalTexts(xs));
    forall i | 0 <= i < |xs| ensures IntDecimal(DecimalTexts(xs)[i]) == Some(xs[i]) {
      IntOfStr(xs[i]);
    }
    assert r.Some?;
    assert r.value == xs;
  }

  /** The pieces `str` joins are dash-free, so splitting gives them back. */
  lemma SplitPieces(a: string, rest: seq<string>)
    requires '-' !in a && DashFree(rest)
    ensures Split(Join(["S", "1", a] + rest)) == ["S", "1", a] + rest
  {
    var parts := ["S", "1", a] + rest;
    assert DashFree(parts) by {
      forall i | 0 <= i < |parts| ensures '-' !in parts[i] {
        if i >= 3 { assert parts[i] == rest[i - 3]; }
      }
    }
    SplitJoin(parts);
  }

  lemma IntOfOne()
    ensures IntDecimal("1") == Some(1)
  {
    assert "1"[..0] == "";
  }

  /** Parsing `str(x)` gives x back once normalized: revision 1, and [0] for an empty
      subauthority list. */
  lemma ParseToString(x: Sid)
    ensures ParseString(ToString(x)) == Ok(Normalized(x))
  {
    var a := AuthorityText(x.identifierAuthority);
    var subs := Normalized(x).subauthorities;
    var rest := DecimalTexts(subs);
    ToStringPieces(x);
    AuthorityTextParses(x.identifierAuthority);
    SplitPieces(a, rest);
    var parts := Split(ToString(x));
    assert parts[0] == "S" && parts[1] == "1" && parts[2] == a && parts[3..] == rest;
    IntOfOne();
    ParseDecimalsOfTexts(subs);
  }

  /** `SID(str_rep=str(x)) == x` for a SID of revision 1 with at least one subauthority. */
  lemma StringRoundTrip(x: Sid)
    requires x.revision == 1 && |x.subauthorities| >= 1
    ensures ParseString(ToString(x)) == Ok(x)
  {
    ParseToString(x);
  }

  /** On SIDs of revision 1 with subauthorities, `str` is injective, so comparing the
      strings agrees with comparing the SIDs. */
  lemma ToStringInjective(x: Sid, y: Sid)
    requires x.revision == 1 && |x.subauthorities| >= 1
    requires y.revision == 1 && |y.subauthorities| >= 1
    ensures ToString(x) == ToString(y) <==> x == y
  {
    StringRoundTrip(x);
    StringRoundTrip(y);
  }

  lemma CanonicalAuthorityRoundTrip(p: string)
    requires CanonicalAuthority(p)
    ensures AuthorityValue(p).Some? && AuthorityText(AuthorityValue(p).value) == p
  {
    if Canonical(p, 10) && DigitsValue(p, 10) <= HexThreshold {
      CanonicalRoundTrip(p, 10);
    } else {
      assert p[0] == '0' && p[1] == 'x';
      assert HasHexMarker(p);
      var q := p[2..];
      CanonicalRoundTrip(q, 16);
      assert p == "0x" + q;
    }
  }

  /** `str(SID(str_rep=s)) == s` for every string `str` can print. */
  lemma CanonicalStringRoundTrip(s: string)
    requires CanonicalSidString(s)
    ensures ParseString(s).Ok? && ToString(ParseString(s).value) == s
  {
    var parts := Split(s);
    CanonicalAuthorityRoundTrip(parts[2]);
    forall i | 3 <= i < |parts| ensures IntDecimal(parts[i]).Some? {
    }
    IntOfOne();
    var x := ParseString(s).value;
    var subs := x.subauthorities;
    assert subs != [];
    var texts := DecimalTexts(subs);
    assert texts == parts[3..] by {
      forall i | 0 <= i < |subs| ensures texts[i] == parts[3 + i] {
        CanonicalRoundTrip(parts[3 + i], 10);
      }
    }
    ToStringPieces(x);
    assert parts == ["S", "1", parts[2]] + parts[3..];
  }

  /** Every string `str` prints is canonical. */
  lemma ToStringCanonical(x: Sid)
    ensures CanonicalSidString(ToString(x))
  {
    var a := AuthorityText(x.identifierAuthority);
    var subs := Normalized(x).subauthorities;
    var rest := DecimalTexts(subs);
    ToStringPieces(x);
    AuthorityTextParses(x.identifierAuthority);
    SplitPieces(a, rest);
    var parts := Split(ToString(x));
    assert parts == ["S", "1", a] + rest;
    AuthorityTextCanonical(x.identifierAuthority);
    forall i | 3 <= i < |parts| ensures Canonical(parts[i], 10) {
      assert parts[i] == Str(subs[i - 3]);
      DigitsAreCanonical(subs[i - 3], 10);
    }
  }

  /** The authority piece of `str(x)` carries the "0x" marker exactly when the authority
      is above 2^32. */
  lemma AuthorityHexIffLarge(x: Sid)
    ensures var parts := Split(ToString(x));
      |parts| >= 4 && (HasHexMarker(parts[2]) <==> x.identifierAuthority > HexThreshold)
  {
    var a := AuthorityText(x.identifierAuthority);
    ToStringPieces(x);
    AuthorityTextParses(x.identifierAuthority);
    SplitPieces(a, DecimalTexts(Normalized(x).subauthorities));
    HexMarkers(x.identifierAuthority);
  }

  lemma AuthorityTextCanonical(n: nat)
    ensures CanonicalAuthority(AuthorityText(n))
  {
    var a := AuthorityText(n);
    if n > HexThreshold {
      DigitsAreCanonical(n, 16);
      DigitsRoundTrip(n, 16);
      assert a[2..] == Digits(n, 16);
    } else {
      DigitsAreCanonical(n, 10);
      DigitsRoundTrip(n, 10);
    }
  }

  /** `str` ignores the revision: two SIDs that differ only there are unequal, yet print
      (and hash) alike. */
  lemma RevisionNotPrinted(x: Sid, r: nat)
    requires r != x.revision
    ensures ToString(x) == ToString(x.(revision := r))
    ensures Eq(x, OtherSid(x.(revision := r))) == Equal(false)
  {
  }

  /** A SID without subauthorities prints like the one with the single subauthority 0, so
      both equal the same string while being unequal to each other. */
  lemma EmptySubauthoritiesPrintAsZero(revision: nat, authority: nat)
    ensures ToString(Sid(revision, authority, [])) == ToString(Sid(revision, authority, [0]))
    ensures Eq(Sid(revision, authority, []), OtherSid(Sid(revision, authority, [0]))) == Equal(false)
  {
    assert Str(0) == [DigitChar(0)];
  }

  /** Equal SIDs hash alike, and a SID equal to a string hashes as that string. */
  lemma HashAgreesWithEq(x: Sid, other: Other)
    requires Eq(x, other) == Equal(true)
    ensures other.OtherSid? ==> HashKey(x) == HashKey(other.sid)
    ensures other.OtherStr? ==> HashKey(x) == other.text
  {
  }

  // ---------------------------------------------------------------------------
  // Lemmas: packet form

  /** Trailing bytes after the declared subauthorities do not change the parse. */
  lemma ParseBytesIgnoresTrailing(data: seq<Byte>, extra: seq<Byte>)
    requires ParseBytes(data).Ok?
    ensures ParseBytes(data + extra) == ParseBytes(data)
  {
    var d := data + extra;
    assert d[2..8] == data[2..8];
    assert d[8..8 + 4 * data[1] as int] == data[8..8 + 4 * data[1] as int];
  }

  /** Decoding `bytes_le` gives the SID back, except that only the low 48 bits of the
      authority survive. */
  lemma BytesRoundTrip(x: Sid)
    requires BytesLe(x).Ok?
    ensures ParseBytes(BytesLe(x).value)
            == Ok(Sid(x.revision, x.identifierAuthority % Pow256(6), x.subauthorities))
  {
    var b := BytesLe(x).value;
    var n := |x.subauthorities|;
    PackBESuffix(x.identifierAuthority, 8, 6);
    assert b[2..8] == PackBE(x.identifierAuthority, 6);
    UnpackPackBE(x.identifierAuthority, 6);
    assert b[8..8 + 4 * n] == PackU32s(x.subauthorities);
    UnpackPackU32s(x.subauthorities);
  }

  /** The round trip is exact when the authority fits the six bytes it is given. */
  lemma BytesRoundTripExact(x: Sid)
    requires x.revision < 256 && |x.subauthorities| < 256
    requires x.identifierAuthority < Pow256(6) && AllU32(x.subauthorities)
    ensures BytesLe(x).Ok? && ParseBytes(BytesLe(x).value) == Ok(x)
  {
    var a := x.identifierAuthority;
    assert Pow256(8) == 256 * 256 * Pow256(6);
    DivModUnique(a, Pow256(6), 0, a);
    BytesRoundTrip(x);
    assert Sid(x.revision, a % Pow256(6), x.subauthorities) == x;
  }

  /** Re-encoding a parsed SID reproduces exactly the bytes it was read from. */
  lemma ParseThenBytes(data: seq<Byte>)
    requires ParseBytes(data).Ok?
    ensures BytesLe(ParseBytes(data).value) == Ok(data[..8 + 4 * data[1] as int])
  {
    FieldsBytes(ParseBytes(data).value, data, data[1]);
  }

  /** A SID whose fields were read from a packet encodes back to that packet. */
  lemma FieldsBytes(x: Sid, data: seq<Byte>, n: nat)
    requires |data| >= 8 + 4 * n && n == data[1] as nat
    requires x.revision == data[0] && x.identifierAuthority == UnpackBE(data[2..8])
    requires x.subauthorities == UnpackU32s(data[8..8 + 4 * n])
    ensures BytesLe(x) == Ok(data[..8 + 4 * n])
  {
    var auth := data[2..8];
    var body := data[8..8 + 4 * n];
    AuthorityBytesBack(auth);
    PackUnpackU32s(body);
    BytesLeParts(x, auth, body);
    PacketPieces(data, n);
  }

  /** A packet is its two header bytes, its authority bytes and its words. */
  lemma PacketPieces(data: seq<Byte>, n: nat)
    requires |data| >= 8 + 4 * n
    ensures data[..8 + 4 * n] == [data[0], data[1]] + data[2..8] + data[8..8 + 4 * n]
  {
  }

  /** Six authority bytes survive `struct.pack(">Q", ...)[2:]` of their value. */
  lemma AuthorityBytesBack(auth: seq<Byte>)
    requires |auth| == 6
    ensures UnpackBE(auth) < Pow256(8) && PackBE(UnpackBE(auth), 8)[2..] == auth
  {
    assert Pow256(8) == 256 * 256 * Pow256(6);
    PackBESuffix(UnpackBE(auth), 8, 6);
    PackUnpackBE(auth);
  }

  /** `bytes_le` of a SID whose fields fit is its header followed by the given authority
      bytes and words. */
  lemma BytesLeParts(x: Sid, auth: seq<Byte>, words: seq<Byte>)
    requires x.revision < 256 && |x.subauthorities| < 256
    requires x.identifierAuthority < Pow256(8) && AllU32(x.subauthorities)
    requires PackBE(x.identifierAuthority, 8)[2..] == auth && PackU32s(x.subauthorities) == words
    ensures BytesLe(x) == Ok([x.revision as Byte, |x.subauthorities| as Byte] + auth + words)
  {
  }

  // ---------------------------------------------------------------------------
  // The cases of tests/test_ad_sid.py

  /** The first piece must be exactly "S". */
  lemma NotAnSidRejected()
    ensures ParseString("NOT-A-SID") == Err(ValueError)
    ensures ParseString("NOT") == Err(ValueError)
  {
    SplitJoin(["NOT", "A", "SID"]);
    assert Join(["NOT", "A", "SID"]) == "NOT-A-SID";
    SplitJoin(["NOT"]);
  }

  /** Empty pieces are not numbers. */
  lemma EmptyFieldsRejected()
    ensures ParseString("S--") == Err(ValueError)
  {
    SplitJoin(["S", "", ""]);
    assert Join(["S", "", ""]) == "S--";
  }

  /** Fewer than three pieces (an IndexError in the source). */
  lemma MissingAuthorityRejected()
    ensures ParseString("S-1") == Err(ValueError)
  {
    SplitJoin(["S", "1"]);
    assert Join(["S", "1"]) == "S-1";
  }

  /** An authority that is neither decimal nor hex. */
  lemma BadAuthorityRejected(s: string)
    requires s == "S-1-NOT-SID"
    ensures ParseString(s) == Err(ValueError)
  {
    var parts := ["S", "1", "NOT", "SID"];
    BadAuthorityPieces(s, parts);
    NotANumber(parts[2]);
    AuthorityRejected(s, parts);
  }

  lemma BadAuthorityPieces(s: string, parts: seq<string>)
    requires s == "S-1-NOT-SID" && parts == ["S", "1", "NOT", "SID"]
    ensures Split(s) == parts
  {
    assert DashFree(parts) by {
      assert '-' !in parts[0] && '-' !in parts[1] && '-' !in parts[2] && '-' !in parts[3];
    }
    JoinCons("NOT", ["SID"]);
    assert parts[2..] == ["NOT", "SID"];
    JoinCons("1", parts[2..]);
    assert parts[1..] == ["1"] + parts[2..];
    assert Join(parts[1..]) == "1-NOT-SID";
    assert Join(parts) == s;
    SplitJoin(parts);
  }

  /** A string whose authority piece is not a number is rejected. */
  lemma AuthorityRejected(s: string, parts: seq<string>)
    requires Split(s) == parts && |parts| >= 3 && AuthorityValue(parts[2]).None?
    ensures ParseString(s) == Err(ValueError)
  {
  }

  lemma NotANumber(p: string)
    requires p == "NOT"
    ensures AuthorityValue(p) == None
  {
    assert DigitValue(p[0]) == -1;
    assert !HasHexMarker(p);
  }

  lemma WrongArgumentTypes()
    ensures NewSid(Some(PyOther), None) == Err(TypeError)
    ensures NewSid(Some(PyBytes([0x53])), None) == Err(TypeError)
    ensures NewSid(None, Some(PyOther)) == Err(TypeError)
    ensures NewSid(None, Some(PyStr("S-1-1-1"))) == Err(TypeError)
    ensures NewSid(Some(PyStr("S-1-1-1")), Some(PyBytes([]))) == Err(TypeError)
  {
  }

  lemma EveryoneExample()
    ensures ParseString("S-1-1-0") == Ok(Sid(1, 1, [0]))
    ensures ToString(Sid(1, 1, [0])) == "S-1-1-0"
  {
    var x := Sid(1, 1, [0]);
    assert Str(0) == "0" by { assert Str(0) == [DigitChar(0)]; }
    assert Str(1) == "1" by { assert Str(1) == [DigitChar(1)]; }
    assert ToString(x) == "S-1-1-0";
    StringRoundTrip(x);
  }

  /** Too short for the count in byte 1: "NOT-A-SID" announces 0x4f subauthorities, and
      the second test packet is three bytes short of its five. */
  lemma ShortPacketsRejected()
    ensures ParseBytes([0x4e, 0x4f, 0x54, 0x2d, 0x41, 0x2d, 0x53, 0x49, 0x44]) == Err(ValueError)
    ensures ParseBytes([1, 5, 0, 0, 0, 5, 0x15, 0, 0, 0, 0xdc, 0xf4, 0xdc, 0x3b, 0x83, 0x3d, 0x2b,
                        0x46, 0x82, 0xa6, 0x28, 0, 2, 0, 0]) == Err(ValueError)
  {
  }

  predicate IsTestPacket(d: seq<Byte>) {
    d == [1, 5, 0, 0, 0, 0, 0, 5, 0x15, 0, 0, 0, 0xdc, 0xf4, 0xdc, 0x3b, 0x83, 0x3d,
          0x2b, 0x46, 0x82, 0x8b, 0xa6, 0x28, 0, 2, 0, 0]
  }

  /** The valid test packet: revision 1, authority 5, five subauthorities. */
  lemma PacketExample(d: seq<Byte>)
    requires IsTestPacket(d)
    ensures ParseBytes(d) == Ok(Sid(1, 5, [21, 1004336348, 1177238915, 682003330, 512]))
  {
    PacketAuthority(d);
    PacketWords(d);
    assert |d| == 28 && d[0] == 1 && d[1] == 5;
  }

  lemma PacketAuthority(d: seq<Byte>)
    requires IsTestPacket(d)
    ensures UnpackBE(d[2..8]) == 5
  {
    assert d[2] == 0 && d[3] == 0 && d[4] == 0 && d[5] == 0 && d[6] == 0 && d[7] == 5;
    var auth := d[2..8];
    assert auth[0] == d[2] && auth[1] == d[3] && auth[2] == d[4] && auth[3] == d[5];
    UnpackBE6(auth);
  }

  lemma PacketWords(d: seq<Byte>)
    requires IsTestPacket(d)
    ensures UnpackU32s(d[8..28]) == [21, 1004336348, 1177238915, 682003330, 512]
  {
    var xs := UnpackU32s(d[8..28]);
    WordAt(d, 8, 0, 0x15, 0, 0, 0);
    WordAt(d, 12, 1, 0xdc, 0xf4, 0xdc, 0x3b);
    WordAt(d, 16, 2, 0x83, 0x3d, 0x2b, 0x46);
    WordAt(d, 20, 3, 0x82, 0x8b, 0xa6, 0x28);
    WordAt(d, 24, 4, 0, 2, 0, 0);
  }

  /** Word i of the subauthorities of a SID packet starting at offset 8. */
  lemma WordAt(d: seq<Byte>, off: nat, i: nat, b0: Byte, b1: Byte, b2: Byte, b3: Byte)
    requires off == 8 + 4 * i && |d| >= off + 4 && |d| >= 28
    requires d[off] == b0 && d[off + 1] == b1 && d[off + 2] == b2 && d[off + 3] == b3
    requires i < 5
    ensures UnpackU32s(d[8..28])[i] == b0 as int + 0x100 * b1 as int + 0x1_0000 * b2 as int + 0x100_0000 * b3 as int
  {
    var w := d[8..28];
    assert w[4 * i..4 * i + 4] == d[off..off + 4];
    UnpackLE4(d[off..off + 4]);
  }
}
