/**
  The canonical JSON of `attest.py`: `json.dumps(claim, sort_keys=True, separators=(",", ":"))` on flat
  claims whose values are strings, booleans or null, with the string escapes of section 7 of RFC 8259.
*/
module CanonicalJson {
  import opened Wrappers
  import opened Sequences

  // ----- Python strings: any code points, lone surrogates included -----

  type CodePoint = n: int | 0 <= n < 0x11_0000

  type Str = seq<CodePoint>

  type Unit = n: int | 0 <= n < 0x1_0000

  /** A string of Unicode scalar values: no surrogate code points. */
  predicate IsScalar(s: Str) {
    forall c | c in s :: !(0xD800 <= c < 0xE000)
  }

  function Units(c: CodePoint): seq<Unit> {
    if c < 0x1_0000 then [c] else [0xD800 + (c - 0x1_0000) / 0x400, 0xDC00 + (c - 0x1_0000) % 0x400]
  }

  function Utf16(s: Str): seq<Unit> {
    if s == [] then [] else Units(s[0]) + Utf16(s[1..])
  }

  predicate CodePointLe(c: CodePoint, d: CodePoint) {
    c <= d
  }

  predicate StrLe(s: Str, t: Str) {
    LexLe(s, t, CodePointLe)
  }

  // ----- The encoder -----

  function HexDigit(n: int): char
    requires 0 <= n < 16
  {
    "0123456789abcdef"[n]
  }

  function Hex4(u: Unit): string {
    [HexDigit(u / 16 / 16 / 16), HexDigit(u / 16 / 16 % 16), HexDigit(u / 16 % 16), HexDigit(u % 16)]
  }

  function Escape(u: Unit): string {
    if u == 0x22 then "\\\""
    else if u == 0x5C then "\\\\"
    else if u == 8 then "\\b"
    else if u == 12 then "\\f"
    else if u == 10 then "\\n"
    else if u == 13 then "\\r"
    else if u == 9 then "\\t"
    else if 0x20 <= u <= 0x7E then [u as char]
    else "\\u" + Hex4(u)
  }

  function Body(units: seq<Unit>): string {
    if units == [] then "" else Escape(units[0]) + Body(units[1..])
  }

  function Quote(s: Str): string {
    "\"" + Body(Utf16(s)) + "\""
  }

  datatype Value = Null | Bool(b: bool) | Text(s: Str)

  datatype Entry = Entry(key: Str, value: Value)

  /** A Python dictionary: its items in insertion order. */
  type Claim = seq<Entry>

  ghost predicate IsDict(c: Claim) {
    forall i, j | 0 <= i < j < |c| :: c[i].key != c[j].key
  }

  function EncodeValue(v: Value): string {
    match v
    case Null => "null"
    case Bool(b) => if b then "true" else "false"
    case Text(s) => Quote(s)
  }

  function EncodeEntry(e: Entry): string {
    Quote(e.key) + ":" + EncodeValue(e.value)
  }

  /** The members after the opening brace, each closed by a comma or, the last one, by the brace. */
  function Members(c: Claim): string {
    if c == [] then "}"
    else EncodeEntry(c[0]) + (if |c| == 1 then "}" else "," + Members(c[1..]))
  }

  predicate EntryLe(e: Entry, f: Entry) {
    StrLe(e.key, f.key)
  }

  function Canonical(c: Claim): string {
    "{" + Members(Sort(c, EntryLe))
  }

  // ----- A reader of the encoding, which recovers the UTF-16 of every string -----

  datatype WireValue = WNull | WBool(b: bool) | WText(units: seq<Unit>)

  datatype WireEntry = WireEntry(key: seq<Unit>, value: WireValue)

  function HexValue(c: char): Option<int> {
    if '0' <= c <= '9' then Some(c as int - '0' as int)
    else if 'a' <= c <= 'f' then Some(c as int - 'a' as int + 10)
    else None
  }

  function ReadHex4(t: string): Option<Unit>
    requires |t| == 4
  {
    var a, b, c, d := HexValue(t[0]), HexValue(t[1]), HexValue(t[2]), HexValue(t[3]);
    if a.Some? && b.Some? && c.Some? && d.Some?
    then
      var u := 0x1000 * a.value + 0x100 * b.value + 16 * c.value + d.value;
      if 0 <= u < 0x1_0000 then Some(u) else None
    else None
  }

  function ReadUnit(t: string): Option<(Unit, string)> {
    if t == "" then None
    else if t[0] != '\\' then if ' ' <= t[0] <= '~' then Some((t[0] as int, t[1..])) else None
    else if |t| == 1 then None
    else if t[1] == '"' then Some((0x22, t[2..]))
    else if t[1] == '\\' then Some((0x5C, t[2..]))
    else if t[1] == 'b' then Some((8, t[2..]))
    else if t[1] == 'f' then Some((12, t[2..]))
    else if t[1] == 'n' then Some((10, t[2..]))
    else if t[1] == 'r' then Some((13, t[2..]))
    else if t[1] == 't' then Some((9, t[2..]))
    else if t[1] != 'u' || |t| < 6 then None
    else match ReadHex4(t[2..6]) case None => None case Some(u) => Some((u, t[6..]))
  }

  /** The units up to the closing quote, and what follows it. */
  function ReadBody(t: string): Option<(seq<Unit>, string)>
    decreases |t|
  {
    if t != "" && t[0] == '"' then Some(([], t[1..]))
    else match ReadUnit(t)
      case None => None
      case Some((u, rest)) =>
        if |rest| >= |t| then None
        else match ReadBody(rest) case None => None case Some((us, rest')) => Some(([u] + us, rest'))
  }

  function ReadQuoted(t: string): Option<(seq<Unit>, string)> {
    if t != "" && t[0] == '"' then ReadBody(t[1..]) else None
  }

  function ReadValue(t: string): Option<(WireValue, string)> {
    if |t| >= 4 && t[..4] == "null" then Some((WNull, t[4..]))
    else if |t| >= 4 && t[..4] == "true" then Some((WBool(true), t[4..]))
    else if |t| >= 5 && t[..5] == "false" then Some((WBool(false), t[5..]))
    else match ReadQuoted(t) case None => None case Some((us, rest)) => Some((WText(us), rest))
  }

  function ReadEntry(t: string): Option<(WireEntry, string)> {
    match ReadQuoted(t)
    case None => None
    case Some((key, rest)) =>
      if rest == "" || rest[0] != ':' then None
      else match ReadValue(rest[1..]) case None => None case Some((v, rest')) => Some((WireEntry(key, v), rest'))
  }

  function ReadMembers(t: string): Option<seq<WireEntry>>
    decreases |t|
  {
    if t == "}" then Some([])
    else match ReadEntry(t)
      case None => None
      case Some((e, rest)) =>
        if rest == "}" then Some([e])
        else if rest == "" || rest[0] != ',' || |rest| > |t| then None
        else match ReadMembers(rest[1..]) case None => None case Some(es) => Some([e] + es)
  }

  function ReadClaim(t: string): Option<seq<WireEntry>> {
    if t == "" || t[0] != '{' then None else ReadMembers(t[1..])
  }

  // ----- The reader undoes the encoder -----

  lemma ReadEscape(u: Unit, rest: string)
    ensures ReadUnit(Escape(u) + rest) == Some((u, rest))
    ensures Escape(u)[0] != '"'
  {
    if u in SHORT_ESCAPES {
      ReadShortEscape(u, Escape(u)[1], rest);
    } else if 0x20 <= u <= 0x7E {
      ReadPlain(u as char, rest);
    } else {
      ReadHexEscape(u, rest);
    }
  }

  const SHORT_ESCAPES: set<int> := {0x22, 0x5C, 8, 12, 10, 13, 9}

  lemma ReadShortEscape(u: Unit, c: char, rest: string)
    requires u in SHORT_ESCAPES && Escape(u) == ['\\', c]
    ensures ReadUnit(['\\', c] + rest) == Some((u, rest))
  {
    assert (['\\', c] + rest)[2..] == rest;
  }

  lemma ReadPlain(c: char, rest: string)
    requires ' ' <= c <= '~' && c != '\\'
    ensures ReadUnit([c] + rest) == Some((c as int, rest))
  {
  }

  lemma ReadHexEscape(u: Unit, rest: string)
    ensures ReadUnit("\\u" + Hex4(u) + rest) == Some((u, rest))
  {
    var t := "\\u" + Hex4(u) + rest;
    assert t[0] == '\\' && t[1] == 'u' && t[2..6] == Hex4(u) && t[6..] == rest;
    HexRoundTrip(u);
  }

  lemma HexRoundTrip(u: Unit)
    ensures ReadHex4(Hex4(u)) == Some(u)
  {
    HexDigitBack(u / 16 / 16 / 16);
    HexDigitBack(u / 16 / 16 % 16);
    HexDigitBack(u / 16 % 16);
    HexDigitBack(u % 16);
  }

  lemma HexDigitBack(n: int)
    requires 0 <= n < 16
    ensures HexValue(HexDigit(n)) == Some(n)
  {
  }

  lemma {:induction false} ReadBodyBack(units: seq<Unit>, rest: string)
    ensures ReadBody(Body(units) + "\"" + rest) == Some((units, rest))
  {
    if units == [] {
      assert Body(units) + "\"" + rest == ['"'] + rest && (['"'] + rest)[1..] == rest;
    } else {
      var tail := Body(units[1..]) + "\"" + rest;
      assert Body(units) + "\"" + rest == Escape(units[0]) + tail;
      ReadBodyBack(units[1..], rest);
      ReadOneUnit(units[0], tail);
      assert [units[0]] + units[1..] == units;
    }
  }

  lemma ReadOneUnit(u: Unit, tail: string)
    requires ReadBody(tail).Some?
    ensures ReadBody(Escape(u) + tail) == Some(([u] + ReadBody(tail).value.0, ReadBody(tail).value.1))
  {
    ReadEscape(u, tail);
    assert (Escape(u) + tail)[0] == Escape(u)[0];
  }

  lemma QuotedTail(body: string, rest: string)
    ensures ("\"" + body + "\"" + rest)[1..] == body + "\"" + rest
  {
  }

  lemma ReadQuotedBack(s: Str, rest: string)
    ensures ReadQuoted(Quote(s) + rest) == Some((Utf16(s), rest))
  {
    var t := Quote(s) + rest;
    ReadBodyBack(Utf16(s), rest);
    assert t[1..] == Body(Utf16(s)) + "\"" + rest by { QuotedTail(Body(Utf16(s)), rest); }
  }

  function Wire(v: Value): WireValue {
    match v
    case Null => WNull
    case Bool(b) => WBool(b)
    case Text(s) => WText(Utf16(s))
  }

  function WireOf(c: Claim): seq<WireEntry> {
    if c == [] then [] else [WireEntry(Utf16(c[0].key), Wire(c[0].value))] + WireOf(c[1..])
  }

  lemma ReadValueBack(v: Value, rest: string)
    ensures ReadValue(EncodeValue(v) + rest) == Some((Wire(v), rest))
  {
    var t := EncodeValue(v) + rest;
    match v {
      case Null => assert t[..4] == "null" && t[4..] == rest;
      case Bool(b) =>
        if b {
          assert t[..4] == "true" && t[4..] == rest;
        } else {
          assert t[..4][0] == 'f' && t[..5] == "false" && t[5..] == rest;
        }
      case Text(s) =>
        assert t[0] == '"';
        ReadQuotedBack(s, rest);
    }
  }

  lemma ReadEntryBack(e: Entry, rest: string)
    ensures ReadEntry(EncodeEntry(e) + rest) == Some((WireEntry(Utf16(e.key), Wire(e.value)), rest))
  {
    var after := ":" + EncodeValue(e.value) + rest;
    Regroup(Quote(e.key), ":", EncodeValue(e.value), rest);
    Regroup("", ":", EncodeValue(e.value), rest);
    ReadQuotedBack(e.key, after);
    assert after[0] == ':' && after[1..] == EncodeValue(e.value) + rest;
    ReadValueBack(e.value, rest);
  }

  lemma Regroup(a: string, b: string, c: string, d: string)
    ensures a + b + c + d == a + (b + c + d)
  {
  }

  lemma {:induction false} ReadMembersBack(c: Claim)
    ensures ReadMembers(Members(c)) == Some(WireOf(c))
  {
    if c != [] {
      var t := Members(c);
      var rest := if |c| == 1 then "}" else "," + Members(c[1..]);
      assert t == EncodeEntry(c[0]) + rest;
      ReadEntryBack(c[0], rest);
      assert t[0] == '"';
      if |c| > 1 {
        assert rest[1..] == Members(c[1..]);
        ReadMembersBack(c[1..]);
      } else {
        assert c[1..] == [];
        assert WireOf(c) == [WireEntry(Utf16(c[0].key), Wire(c[0].value))];
      }
    }
  }

  /** Reading a canonical claim gives back its entries in key order, with every string in UTF-16. */
  lemma CanonicalRoundTrip(c: Claim)
    ensures ReadClaim(Canonical(c)) == Some(WireOf(Sort(c, EntryLe)))
  {
    ReadMembersBack(Sort(c, EntryLe));
    assert Canonical(c)[1..] == Members(Sort(c, EntryLe));
  }

  // ----- Which strings share an encoding -----

  /** Two Python strings are encoded alike exactly when their UTF-16 forms agree. */
  lemma QuoteIsExactlyUtf16(s: Str, t: Str)
    ensures Quote(s) == Quote(t) <==> Utf16(s) == Utf16(t)
  {
    ReadQuotedBack(s, "");
    ReadQuotedBack(t, "");
    assert Quote(s) + "" == Quote(s) && Quote(t) + "" == Quote(t);
  }

  lemma {:induction false} WireFixesMembers(c: Claim, d: Claim)
    requires WireOf(c) == WireOf(d)
    ensures |c| == |d| && Members(c) == Members(d)
  {
    if c != [] {
      assert d != [] && WireOf(c)[0] == WireOf(d)[0] && WireOf(c)[1..] == WireOf(d)[1..];
      WireFixesMembers(c[1..], d[1..]);
    }
  }

  /** Any two claims are encoded alike exactly when their sorted items agree in UTF-16, value by value. */
  lemma CanonicalIsExactlyWire(c: Claim, d: Claim)
    ensures Canonical(c) == Canonical(d) <==> WireOf(Sort(c, EntryLe)) == WireOf(Sort(d, EntryLe))
  {
    CanonicalRoundTrip(c);
    CanonicalRoundTrip(d);
    if WireOf(Sort(c, EntryLe)) == WireOf(Sort(d, EntryLe)) {
      WireFixesMembers(Sort(c, EntryLe), Sort(d, EntryLe));
    }
  }

  lemma {:induction false} Utf16Injective(s: Str, t: Str)
    requires IsScalar(s) && IsScalar(t) && Utf16(s) == Utf16(t)
    ensures s == t
  {
    if s != [] && t != [] {
      var c, d := s[0], t[0];
      assert c in s && d in t;
      assert Utf16(s)[0] == Units(c)[0] && Utf16(t)[0] == Units(d)[0];
      if c >= 0x1_0000 && d >= 0x1_0000 {
        assert Utf16(s)[1] == Units(c)[1] && Utf16(t)[1] == Units(d)[1];
        var m, n := c - 0x1_0000, d - 0x1_0000;
        assert m == 0x400 * (m / 0x400) + m % 0x400 && n == 0x400 * (n / 0x400) + n % 0x400;
      }
      assert c == d;
      assert Utf16(s)[|Units(c)|..] == Utf16(s[1..]) && Utf16(t)[|Units(d)|..] == Utf16(t[1..]);
      assert forall x | x in s[1..] :: x in s;
      assert forall x | x in t[1..] :: x in t;
      Utf16Injective(s[1..], t[1..]);
      assert s == [c] + s[1..] && t == [d] + t[1..];
    }
  }

  /** Outside the scalar values the encoding is not injective: a surrogate pair reads as one character. */
  lemma SurrogatePairCollides()
    ensures Quote([0xD83D, 0xDE00]) == Quote([0x1F600])
  {
  }

  // ----- Main results on claims -----

  ghost predicate ScalarClaim(c: Claim) {
    forall e | e in c :: IsScalar(e.key) && (e.value.Text? ==> IsScalar(e.value.s))
  }

  lemma EntryOrder()
    ensures TotalPreorder(EntryLe)
    ensures forall s, t :: StrLe(s, t) && StrLe(t, s) ==> s == t
  {
    assert TotalOrder(CodePointLe);
    forall s, t ensures (StrLe(s, t) || StrLe(t, s)) && (StrLe(s, t) && StrLe(t, s) ==> s == t) {
      LexTotal(s, t, CodePointLe);
    }
    forall e: Entry, f: Entry, g: Entry | EntryLe(e, f) && EntryLe(f, g) ensures EntryLe(e, g) {
      LexTransitive(e.key, f.key, g.key, CodePointLe);
    }
    forall e: Entry, f: Entry ensures EntryLe(e, f) || EntryLe(f, e) {
      assert StrLe(e.key, f.key) || StrLe(f.key, e.key);
    }
  }

  /** The insertion order of a claim's keys does not show in its canonical form. */
  lemma CanonicalIgnoresOrder(c: Claim, d: Claim)
    requires IsDict(c) && multiset(c) == multiset(d)
    ensures Canonical(c) == Canonical(d)
  {
    EntryOrder();
    SortIsSortedPermutation(c, EntryLe);
    SortIsSortedPermutation(d, EntryLe);
    SortedUnique(Sort(c, EntryLe), Sort(d, EntryLe), EntryLe);
  }

  lemma {:induction false} WireInjective(c: Claim, d: Claim)
    requires ScalarClaim(c) && ScalarClaim(d) && WireOf(c) == WireOf(d)
    ensures c == d
  {
    if c != [] && d != [] {
      var e, f := c[0], d[0];
      assert e in c && f in d;
      assert WireOf(c)[0] == WireOf(d)[0] && WireOf(c)[1..] == WireOf(c[1..]) && WireOf(d)[1..] == WireOf(d[1..]);
      Utf16Injective(e.key, f.key);
      if e.value.Text? && f.value.Text? {
        Utf16Injective(e.value.s, f.value.s);
      }
      WireInjective(c[1..], d[1..]);
      assert c == [e] + c[1..] && d == [f] + d[1..];
    }
  }

  /** Scalar claims have the same canonical form exactly when they hold the same items. */
  lemma CanonicalInjective(c: Claim, d: Claim)
    requires IsDict(c) && IsDict(d) && ScalarClaim(c) && ScalarClaim(d)
    ensures Canonical(c) == Canonical(d) <==> multiset(c) == multiset(d)
  {
    if multiset(c) == multiset(d) {
      CanonicalIgnoresOrder(c, d);
    }
    if Canonical(c) == Canonical(d) {
      EntryOrder();
      CanonicalRoundTrip(c);
      CanonicalRoundTrip(d);
      SortIsSortedPermutation(c, EntryLe);
      SortIsSortedPermutation(d, EntryLe);
      WireInjective(Sort(c, EntryLe), Sort(d, EntryLe));
    }
  }

  // ----- An encoding, spelled out -----

  lemma EscapesLookLike()
    ensures Escape(0x22) == "\\\"" && Escape(0x5C) == "\\\\" && Escape(0x61) == "a" && Escape(0x2F) == "/"
    ensures Escape(8) == "\\b" && Escape(9) == "\\t" && Escape(10) == "\\n"
    ensures Escape(12) == "\\f" && Escape(13) == "\\r"
  {
  }

  lemma HexLooksLike()
    ensures Hex4(0x1F) == "001f" && Hex4(0x7F) == "007f" && Hex4(0xD83D) == "d83d"
  {
  }

  /** Every other unit outside printable ASCII is escaped with four hexadecimal digits. */
  lemma OtherEscapes(u: Unit)
    requires (u < 0x20 || u > 0x7E) && u !in {8, 9, 10, 12, 13}
    ensures Escape(u) == "\\u" + Hex4(u) && |Escape(u)| == 6
  {
  }

  lemma QuoteOne(u: Str)
    requires u == [0x61] || u == [0x62]
    ensures Quote(u) == if u == [0x61] then "\"a\"" else "\"b\""
  {
    assert u[1..] == [] && Utf16(u) == u && Body(u) == [u[0] as char] + "";
  }

  lemma TwoMembers(e: Entry, f: Entry)
    requires EntryLe(e, f) && !EntryLe(f, e)
    ensures Canonical([f, e]) == "{" + (EncodeEntry(e) + ("," + (EncodeEntry(f) + "}")))
  {
    assert [f, e][1..] == [e] && [e][1..] == [] && [e, f][1..] == [f];
    assert Sort([e], EntryLe) == [e];
    assert [e][1..] == [] && Insert(f, [], EntryLe) == [f];
    assert Insert(f, [e], EntryLe) == [e] + [f] == [e, f];
    assert Sort([f, e], EntryLe) == [e, f];
    assert Members([f]) == EncodeEntry(f) + "}";
    assert Members([e, f]) == EncodeEntry(e) + ("," + Members([f]));
  }

  /** Keys are sorted and separators have no spaces. */
  lemma EncodingLooksLike(s: Str)
    ensures var a: Str, b: Str := [0x61], [0x62];
      Canonical([Entry(b, Text(s)), Entry(a, Bool(true))])
      == "{" + ("\"a\"" + ":" + "true" + ("," + ("\"b\"" + ":" + Quote(s) + "}")))
    ensures EncodeValue(Null) == "null" && EncodeValue(Bool(false)) == "false" && Canonical([]) == "{}"
  {
    var a: Str, b: Str := [0x61], [0x62];
    QuoteOne(a);
    QuoteOne(b);
    TwoMembers(Entry(a, Bool(true)), Entry(b, Text(s)));
  }
}
