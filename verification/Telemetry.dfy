/**
  The backward telemetry scan of the external benchmark: `_extract_cost`, `_extract_int` and
  `_extract_token_usage`. The two extractors are one scan with different accepted characters and
  number parsers.
*/
module Telemetry {
  import opened Wrappers
  import opened PyText

  // ----- The string operations the scan uses -----

  function TakeWhile(s: string, accept: char -> bool): string {
    if s != [] && accept(s[0]) then [s[0]] + TakeWhile(s[1..], accept) else []
  }

  lemma TakeWhileStep(s: string, c: nat, accept: char -> bool)
    requires c < |s| && accept(s[c])
    ensures TakeWhile(s[c..], accept) == [s[c]] + TakeWhile(s[c + 1..], accept)
  {
  }

  predicate MatchAt(s: string, m: string, i: int) {
    0 <= i && i + |m| <= |s| && s[i..i + |m|] == m
  }

  /** `s.rfind(m, 0, hi)`: the last match that ends by `hi`, or -1. */
  function RFind(s: string, m: string, hi: nat): (r: int)
    requires hi <= |s|
    ensures r == -1 || (MatchAt(s, m, r) && r + |m| <= hi)
  {
    if hi < |m| then -1
    else if MatchAt(s, m, hi - |m|) then hi - |m|
    else if hi == 0 then -1
    else RFind(s, m, hi - 1)
  }

  lemma {:induction false} RFindIsLast(s: string, m: string, hi: nat)
    requires hi <= |s|
    ensures forall i | MatchAt(s, m, i) && i + |m| <= hi :: i <= RFind(s, m, hi)
  {
    if hi > 0 && hi >= |m| && !MatchAt(s, m, hi - |m|) {
      RFindIsLast(s, m, hi - 1);
    }
  }

  function Marker(key: string): string {
    "\"" + key + "\""
  }

  // ----- The number, if any, that follows a marker -----

  function NumberAfter<N>(tail: string, accept: char -> bool, parse: string -> Option<N>): Option<N> {
    var t := LStrip(tail);
    if t != [] && t[0] == ':' then parse(TakeWhile(RStrip(LStrip(t[1..])), accept)) else None
  }

  function Reading<N>(out: string, key: string, i: int, accept: char -> bool, parse: string -> Option<N>): Option<N>
    requires MatchAt(out, Marker(key), i)
  {
    NumberAfter(out[i + |Marker(key)|..], accept, parse)
  }

  /** `r` is the reading of the last occurrence of the key that has one. */
  ghost predicate LastReading<N>(
    out: string, key: string, accept: char -> bool, parse: string -> Option<N>, r: Option<N>)
  {
    if r.None? then forall j | MatchAt(out, Marker(key), j) :: Reading(out, key, j, accept, parse).None?
    else exists i | MatchAt(out, Marker(key), i) ::
        && Reading(out, key, i, accept, parse) == r
        && forall j | MatchAt(out, Marker(key), j) && i < j :: Reading(out, key, j, accept, parse).None?
  }

  /** The occurrences the scan visits: each next match must end where the current one begins. */
  function Scan<N>(out: string, key: string, hi: nat, accept: char -> bool, parse: string -> Option<N>): Option<N>
    requires hi <= |out|
    decreases hi
  {
    var i := RFind(out, Marker(key), hi);
    if i == -1 then None
    else
      var r := Reading(out, key, i, accept, parse);
      if r.Some? then r else Scan(out, key, i, accept, parse)
  }

  // ----- The extractors -----

  /** The body of the scan's loop: the characters after the colon, collected one by one. */
  method ReadNumber<N>(after: string, accept: char -> bool, parse: string -> Option<N>) returns (r: Option<N>)
    ensures r == NumberAfter(after, accept, parse)
  {
    var tail := LStrip(after);
    if tail == [] || tail[0] != ':' { return None; }
    var num := RStrip(LStrip(tail[1..]));
    ghost var digits := TakeWhile(num, accept);
    var buf, c := "", 0;
    assert num[0..] == num;
    while c < |num| && accept(num[c])
      invariant 0 <= c <= |num|
      invariant digits == buf + TakeWhile(num[c..], accept)
    {
      TakeWhileStep(num, c, accept);
      buf, c := buf + [num[c]], c + 1;
    }
    assert TakeWhile(num[c..], accept) == [];
    assert digits == buf;
    return parse(buf);
  }

  /** What the loop returns when it is about to look at the match `i`, or at no match (-1). */
  function ScanFrom<N>(out: string, key: string, i: int, accept: char -> bool, parse: string -> Option<N>): Option<N>
    requires i == -1 || MatchAt(out, Marker(key), i)
  {
    if i == -1 then None
    else if Reading(out, key, i, accept, parse).Some? then Reading(out, key, i, accept, parse)
    else Scan(out, key, i, accept, parse)
  }

  lemma ScanStep<N>(out: string, key: string, hi: nat, accept: char -> bool, parse: string -> Option<N>)
    requires hi <= |out|
    ensures Scan(out, key, hi, accept, parse) == ScanFrom(out, key, RFind(out, Marker(key), hi), accept, parse)
  {
  }

  method ScanKey<N>(out: string, key: string, accept: char -> bool, parse: string -> Option<N>)
    returns (r: Option<N>)
    ensures r == Scan(out, key, |out|, accept, parse)
  {
    var marker := Marker(key);
    ghost var answer := Scan(out, key, |out|, accept, parse);
    var idx := RFind(out, marker, |out|);
    ScanStep(out, key, |out|, accept, parse);
    while idx != -1
      invariant idx == -1 || MatchAt(out, marker, idx)
      invariant answer == ScanFrom(out, key, idx, accept, parse)
      decreases idx
    {
      r := ReadNumber(out[idx + |marker|..], accept, parse);
      if r.Some? { return; }
      ScanStep(out, key, idx, accept, parse);
      idx := RFind(out, marker, idx);
    }
    return None;
  }

  /** `r` is what the scan finds for the first key for which it finds anything. */
  ghost predicate FirstScan<N>(
    out: string, keys: seq<string>, accept: char -> bool, parse: string -> Option<N>, r: Option<N>)
  {
    if r.None? then forall key | key in keys :: Scan(out, key, |out|, accept, parse).None?
    else exists k | 0 <= k < |keys| ::
        && Scan(out, keys[k], |out|, accept, parse) == r
        && forall j | 0 <= j < k :: Scan(out, keys[j], |out|, accept, parse).None?
  }

  method Extract<N>(out: string, keys: seq<string>, accept: char -> bool, parse: string -> Option<N>)
    returns (r: Option<N>)
    ensures FirstScan(out, keys, accept, parse, r)
  {
    for k := 0 to |keys|
      invariant forall j | 0 <= j < k :: Scan(out, keys[j], |out|, accept, parse).None?
    {
      r := ScanKey(out, keys[k], accept, parse);
      if r.Some? { return r; }
    }
    return None;
  }

  predicate IsDigit(c: char) {
    '0' <= c <= '9'
  }

  predicate IsCostChar(c: char) {
    IsDigit(c) || c in ".-e+"
  }

  /** `int(buf)` for a run of digits; the empty run is not a number. */
  function Integer(buf: string): Option<nat> {
    if buf == "" then None else Some(Decimal(buf))
  }

  function Decimal(digits: string): nat {
    if digits == "" then 0
    else
      var d := digits[|digits| - 1];
      10 * Decimal(digits[..|digits| - 1]) + if IsDigit(d) then (d - '0') as nat else 0
  }

  /** The decimal numeral of a number. */
  function Numeral(n: nat): string {
    if n < 10 then [('0' as int + n) as char] else Numeral(n / 10) + [('0' as int + n % 10) as char]
  }

  lemma {:induction false} NumeralRoundTrip(n: nat)
    ensures forall c | c in Numeral(n) :: IsDigit(c)
    ensures Integer(Numeral(n)) == Some(n)
  {
    var numeral := Numeral(n);
    if n >= 10 {
      NumeralRoundTrip(n / 10);
      assert numeral[..|numeral| - 1] == Numeral(n / 10);
    } else {
      assert numeral[..|numeral| - 1] == "" && IsDigit(numeral[0]);
      assert Decimal(numeral) == 10 * Decimal("") + n;
    }
  }

  const COST_KEYS := ["total_cost_usd", "cost_usd", "total_cost"]
  const INPUT_KEYS := ["input_tokens", "prompt_tokens", "total_input_tokens"]
  const OUTPUT_KEYS := ["output_tokens", "completion_tokens", "total_output_tokens"]
  const CONTEXT_KEYS := ["context_tokens"]

  datatype TokenUsage = TokenUsage(input: Option<nat>, output: Option<nat>, context: Option<nat>)

  /** `float` is Python's parser of the collected characters: `None` where it raises `ValueError`. */
  method ExtractCost(out: string, float: string -> Option<real>) returns (r: Option<real>)
    ensures FirstKeyWithReading(out, COST_KEYS, IsCostChar, float, r)
    ensures FirstKeyShown(out, ["total_cost_usd", "cost_usd", "total_cost"], "0123456789.-e+", float, r)
  {
    r := Extract(out, COST_KEYS, IsCostChar, float);
    BenchmarkKeysArePlain();
    PlainKeysSuffice(out, COST_KEYS, IsCostChar, float, r);
    CostCharacters();
    ReadingsAreShown(out, COST_KEYS, "0123456789.-e+", IsCostChar, float, r);
  }

  method ExtractInt(out: string, keys: seq<string>) returns (r: Option<nat>)
    ensures FirstScan(out, keys, IsDigit, Integer, r)
    ensures PlainKeys(keys) ==> FirstKeyWithReading(out, keys, IsDigit, Integer, r)
    ensures PlainKeys(keys) ==> FirstKeyShown(out, keys, "0123456789", Integer, r)
  {
    r := Extract(out, keys, IsDigit, Integer);
    if PlainKeys(keys) {
      PlainKeysSuffice(out, keys, IsDigit, Integer, r);
      DigitCharacters();
      ReadingsAreShown(out, keys, "0123456789", IsDigit, Integer, r);
    }
  }

  lemma BenchmarkKeysArePlain()
    ensures PlainKeys(COST_KEYS) && PlainKeys(INPUT_KEYS) && PlainKeys(OUTPUT_KEYS) && PlainKeys(CONTEXT_KEYS)
  {
    ThreePlainKeys("total_cost_usd", "cost_usd", "total_cost");
    ThreePlainKeys("input_tokens", "prompt_tokens", "total_input_tokens");
    ThreePlainKeys("output_tokens", "completion_tokens", "total_output_tokens");
    assert PlainKey("context_tokens");
  }

  lemma ThreePlainKeys(a: string, b: string, c: string)
    requires PlainKey(a) && PlainKey(b) && PlainKey(c)
    ensures PlainKeys([a, b, c])
  {
  }

  method ExtractTokenUsage(out: string) returns (r: TokenUsage)
    ensures FirstKeyWithReading(out, INPUT_KEYS, IsDigit, Integer, r.input)
    ensures FirstKeyWithReading(out, OUTPUT_KEYS, IsDigit, Integer, r.output)
    ensures FirstKeyWithReading(out, CONTEXT_KEYS, IsDigit, Integer, r.context)
    ensures FirstKeyShown(out, ["input_tokens", "prompt_tokens", "total_input_tokens"], "0123456789", Integer, r.input)
    ensures FirstKeyShown(
              out, ["output_tokens", "completion_tokens", "total_output_tokens"], "0123456789", Integer, r.output)
    ensures FirstKeyShown(out, ["context_tokens"], "0123456789", Integer, r.context)
  {
    BenchmarkKeysArePlain();
    var i := ExtractInt(out, INPUT_KEYS);
    var o := ExtractInt(out, OUTPUT_KEYS);
    var c := ExtractInt(out, CONTEXT_KEYS);
    r := TokenUsage(i, o, c);
  }

  // ----- A number read inside a key ends at the closing quote -----

  lemma {:induction false} LStripAtQuote(s: string, rest: string)
    ensures LStrip(s + ['"'] + rest) == LStrip(s) + ['"'] + rest
  {
    var w := s + ['"'] + rest;
    if s != [] && IsSpace(s[0]) {
      LStripAtQuote(s[1..], rest);
      assert w[1..] == s[1..] + ['"'] + rest;
    } else {
      assert w[0] == if s == [] then '"' else s[0];
    }
  }

  lemma {:induction false} RStripAtQuote(s: string, rest: string)
    ensures RStrip(s + ['"'] + rest) == s + ['"'] + RStrip(rest)
    decreases |rest|
  {
    var w := s + ['"'] + rest;
    if rest != [] && IsSpace(rest[|rest| - 1]) {
      RStripAtQuote(s, rest[..|rest| - 1]);
      assert w[..|w| - 1] == s + ['"'] + rest[..|rest| - 1];
    } else {
      assert w[|w| - 1] == if rest == [] then '"' else rest[|rest| - 1];
    }
  }

  lemma {:induction false} TakeWhileAtQuote(s: string, rest: string, accept: char -> bool)
    requires !accept('"')
    ensures TakeWhile(s + ['"'] + rest, accept) == TakeWhile(s, accept)
  {
    var w := s + ['"'] + rest;
    if s != [] {
      TakeWhileAtQuote(s[1..], rest, accept);
      assert w[0] == s[0] && w[1..] == s[1..] + ['"'] + rest;
    }
  }

  lemma NumberEndsAtQuote<N>(s: string, rest: string, accept: char -> bool, parse: string -> Option<N>)
    requires !accept('"')
    ensures NumberAfter(s + ['"'] + rest, accept, parse) == NumberAfter(s + ['"'], accept, parse)
  {
    var t := LStrip(s);
    LStripAtQuote(s, rest);
    LStripAtQuote(s, []);
    assert s + ['"'] + [] == s + ['"'];
    if t != [] && t[0] == ':' {
      var k := LStrip(t[1..]);
      AfterColonAtQuote(t, rest, accept);
      AfterColonAtQuote(t, [], accept);
      assert t + ['"'] + [] == t + ['"'];
    }
  }

  lemma AfterColonAtQuote(t: string, rest: string, accept: char -> bool)
    requires !accept('"') && t != []
    ensures TakeWhile(RStrip(LStrip((t + ['"'] + rest)[1..])), accept) == TakeWhile(LStrip(t[1..]), accept)
  {
    var k := LStrip(t[1..]);
    assert (t + ['"'] + rest)[1..] == t[1..] + ['"'] + rest;
    LStripAtQuote(t[1..], rest);
    RStripAtQuote(k, rest);
    TakeWhileAtQuote(k, RStrip(rest), accept);
  }

  // ----- Skipped occurrences -----

  /** A match that overlaps a later one shares only its closing quote with it. */
  lemma OverlapSharesOneQuote(out: string, key: string, i: int, j: int)
    requires '"' !in key
    requires MatchAt(out, Marker(key), i) && MatchAt(out, Marker(key), j)
    requires j < i < j + |Marker(key)|
    ensures i == j + |Marker(key)| - 1
    ensures out[j + |Marker(key)|..] == key + ['"'] + out[i + |Marker(key)|..]
  {
    var m, d := Marker(key), i - j;
    assert m == out[j..j + |m|] && m == out[i..i + |m|];
    assert out[j..j + |m|][d] == out[i] == out[i..i + |m|][0] == '"';
    assert out[i + 1..] == out[i..i + |m|][1..] + out[i + |m|..];
  }

  lemma {:induction false} ScanFindsLast<N>(
      out: string, key: string, hi: nat, accept: char -> bool, parse: string -> Option<N>)
    requires '"' !in key && !accept('"') && hi <= |out|
    requires NumberAfter(key + ['"'], accept, parse).None?
    requires forall j | MatchAt(out, Marker(key), j) && hi < j + |Marker(key)| ::
               Reading(out, key, j, accept, parse).None?
    ensures LastReading(out, key, accept, parse, Scan(out, key, hi, accept, parse))
    decreases hi
  {
    RFindIsLast(out, Marker(key), hi);
    var i := RFind(out, Marker(key), hi);
    if i != -1 && Reading(out, key, i, accept, parse).None? {
      forall j | MatchAt(out, Marker(key), j) && i < j + |Marker(key)|
        ensures Reading(out, key, j, accept, parse).None?
      {
        if j < i {
          OverlapSharesOneQuote(out, key, i, j);
          NumberEndsAtQuote(key, out[i + |Marker(key)|..], accept, parse);
        }
      }
      ScanFindsLast(out, key, i, accept, parse);
    }
  }

  /** The output in which two occurrences of a key share a quote. */
  function Doubled(key: string): string {
    Marker(key) + key + "\""
  }

  lemma DoubledMatches(key: string)
    ensures var out, m := Doubled(key), Marker(key);
      && MatchAt(out, m, 0) && out[|m|..] == key + ['"']
      && MatchAt(out, m, |m| - 1) && out[|m| - 1 + |m|..] == []
      && RFind(out, m, |out|) == |m| - 1 && RFind(out, m, |m| - 1) == -1
  {
  }

  /** There, a key that itself reads as a number misleads the scan. */
  lemma SkippedReading<N>(key: string, accept: char -> bool, parse: string -> Option<N>)
    requires NumberAfter(key + ['"'], accept, parse).Some?
    ensures var out := Doubled(key);
      Scan(out, key, |out|, accept, parse).None? && !LastReading(out, key, accept, parse, None)
  {
    var out, last := Doubled(key), |Marker(key)| - 1;
    DoubledMatches(key);
    assert Reading(out, key, last, accept, parse).None?;
    assert Reading(out, key, 0, accept, parse).Some?;
  }

  // ----- Main results -----

  /**
    For a key without quotes, the scan returns the last reading on every output exactly when the key
    does not itself begin, after white space, with a colon and a number.
   */
  lemma ScanIsExactWhen<N>(key: string, accept: char -> bool, parse: string -> Option<N>)
    requires '"' !in key && !accept('"')
    ensures (forall out :: LastReading(out, key, accept, parse, Scan(out, key, |out|, accept, parse)))
            <==> NumberAfter(key + ['"'], accept, parse).None?
  {
    if NumberAfter(key + ['"'], accept, parse).None? {
      forall out: string ensures LastReading(out, key, accept, parse, Scan(out, key, |out|, accept, parse)) {
        ScanFindsLast(out, key, |out|, accept, parse);
      }
    } else {
      SkippedReading(key, accept, parse);
    }
  }

  /** `r` is the last reading of the first key that has a reading at all. */
  ghost predicate FirstKeyWithReading<N>(
    out: string, keys: seq<string>, accept: char -> bool, parse: string -> Option<N>, r: Option<N>)
  {
    if r.None? then forall key | key in keys :: LastReading(out, key, accept, parse, None)
    else exists k | 0 <= k < |keys| ::
        && LastReading(out, keys[k], accept, parse, r)
        && forall j | 0 <= j < k :: LastReading(out, keys[j], accept, parse, None)
  }

  predicate PlainKey(key: string) {
    '"' !in key && key != "" && !IsSpace(key[0]) && key[0] != ':'
  }

  predicate PlainKeys(keys: seq<string>) {
    forall key | key in keys :: PlainKey(key)
  }

  /** The keys the benchmark uses are plain, and plain keys meet the condition of `ScanIsExactWhen`. */
  lemma PlainKeysSuffice<N>(
      out: string, keys: seq<string>, accept: char -> bool, parse: string -> Option<N>, r: Option<N>)
    requires !accept('"') && PlainKeys(keys)
    requires FirstScan(out, keys, accept, parse, r)
    ensures FirstKeyWithReading(out, keys, accept, parse, r)
  {
    forall key | key in keys ensures LastReading(out, key, accept, parse, Scan(out, key, |out|, accept, parse)) {
      assert (key + ['"'])[0] == key[0];
      ScanFindsLast(out, key, |out|, accept, parse);
    }
  }

  // ----- What a reading is, in the characters of the output -----

  ghost predicate AllSpace(w: string) {
    forall c | c in w :: IsSpace(c)
  }

  /** `text` is the whole of what stands over `chars` where `rest` begins. */
  ghost predicate Ends(text: string, rest: string, chars: string) {
    && (forall c | c in text :: c in chars)
    && (rest != "" ==> rest[0] !in chars && (text == "" ==> !IsSpace(rest[0])))
  }

  /** White space, a colon, white space, and then all of `text`. */
  ghost predicate ShowsText(tail: string, text: string, chars: string) {
    exists w1, w2, rest ::
      AllSpace(w1) && AllSpace(w2) && Ends(text, rest, chars) && tail == w1 + ":" + w2 + text + rest
  }

  /** The quoted key stands after the first `n` characters, and a text that parses as `v` follows it. */
  ghost predicate Shows<N>(out: string, key: string, n: nat, chars: string, parse: string -> Option<N>, v: N) {
    exists text, tail ::
      && n <= |out| && out[n..] == "\"" + key + "\"" + tail
      && ShowsText(tail, text, chars) && parse(text) == Some(v)
  }

  /** Some occurrence of the key shows `r`, and no later one shows anything; `None` if no occurrence does. */
  ghost predicate LastShown<N(!new)>(
    out: string, key: string, chars: string, parse: string -> Option<N>, r: Option<N>)
  {
    if r.None? then forall n: nat, v :: !Shows(out, key, n, chars, parse, v)
    else exists n: nat ::
      && Shows(out, key, n, chars, parse, r.value)
      && forall m: nat, v | n < m :: !Shows(out, key, m, chars, parse, v)
  }

  /** The last number shown for the first key that shows any. */
  ghost predicate FirstKeyShown<N(!new)>(
    out: string, keys: seq<string>, chars: string, parse: string -> Option<N>, r: Option<N>)
  {
    if r.None? then forall key | key in keys :: LastShown(out, key, chars, parse, None)
    else exists k | 0 <= k < |keys| ::
        && LastShown(out, keys[k], chars, parse, r)
        && forall j | 0 <= j < k :: LastShown(out, keys[j], chars, parse, None)
  }

  lemma {:induction false} LStripSplit(s: string) returns (w: string)
    ensures AllSpace(w) && s == w + LStrip(s)
    ensures LStrip(s) == "" || !IsSpace(LStrip(s)[0])
  {
    w := "";
    if s != "" && IsSpace(s[0]) {
      var w' := LStripSplit(s[1..]);
      w := [s[0]] + w';
    }
  }

  lemma {:induction false} LStripOf(w: string, s: string)
    requires AllSpace(w) && (s == "" || !IsSpace(s[0]))
    ensures LStrip(w + s) == s
  {
    if w == "" {
      assert w + s == s;
    } else {
      assert (w + s)[0] == w[0] && (w + s)[1..] == w[1..] + s && w[0] in w;
      LStripOf(w[1..], s);
    }
  }

  lemma {:induction false} RStripSplit(s: string) returns (w: string)
    ensures AllSpace(w) && s == RStrip(s) + w
  {
    w := "";
    if s != "" && IsSpace(s[|s| - 1]) {
      var w' := RStripSplit(s[..|s| - 1]);
      w := w' + [s[|s| - 1]];
      assert s == s[..|s| - 1] + [s[|s| - 1]];
    }
  }

  /** The characters collected, and what stands after them. */
  lemma {:induction false} TakeWhileSplit(s: string, accept: char -> bool) returns (rest: string)
    ensures s == TakeWhile(s, accept) + rest
    ensures (forall c | c in TakeWhile(s, accept) :: accept(c)) && (rest != "" ==> !accept(rest[0]))
  {
    rest := s;
    if s != "" && accept(s[0]) {
      rest := TakeWhileSplit(s[1..], accept);
    }
  }

  /** The split into accepted characters and a rest that does not begin with one is unique. */
  lemma {:induction false} TakeWhileOf(text: string, rest: string, accept: char -> bool)
    requires (forall c | c in text :: accept(c)) && (rest != "" ==> !accept(rest[0]))
    ensures TakeWhile(text + rest, accept) == text
  {
    if text == "" {
      assert text + rest == rest;
    } else {
      assert (text + rest)[0] == text[0] && (text + rest)[1..] == text[1..] + rest && text[0] in text;
      TakeWhileOf(text[1..], rest, accept);
    }
  }

  /** Stripping white space at the end does not change the collected characters. */
  lemma TakeWhileOfRStrip(s: string, accept: char -> bool)
    requires forall c | accept(c) :: !IsSpace(c)
    ensures TakeWhile(RStrip(s), accept) == TakeWhile(s, accept)
  {
    var w := RStripSplit(s);
    var rest := TakeWhileSplit(RStrip(s), accept);
    var text := TakeWhile(RStrip(s), accept);
    assert rest + w != "" && rest == "" ==> (rest + w)[0] == w[0] && w[0] in w;
    assert s == text + (rest + w);
    TakeWhileOf(text, rest + w, accept);
  }

  lemma DigitCharacters()
    ensures Accepts(IsDigit, "0123456789")
  {
    forall c ensures IsDigit(c) <==> c in "0123456789" {
      if IsDigit(c) { assert "0123456789"[(c - '0') as int] == c; }
    }
  }

  lemma CostCharacters()
    ensures Accepts(IsCostChar, "0123456789.-e+")
  {
    DigitCharacters();
    forall c ensures c in "0123456789.-e+" <==> IsCostChar(c) {
      assert "0123456789.-e+" == "0123456789" + ".-e+";
    }
  }

  ghost predicate Accepts(accept: char -> bool, chars: string) {
    && (forall c :: accept(c) <==> c in chars)
    && (forall c | c in chars :: !IsSpace(c))
  }

  /** The number after a marker is what parses there, and there is one exactly when the text shows it. */
  lemma NumberIsShown<N>(tail: string, chars: string, accept: char -> bool, parse: string -> Option<N>, v: N)
    requires Accepts(accept, chars)
    ensures NumberAfter(tail, accept, parse) == Some(v)
            <==> exists text :: ShowsText(tail, text, chars) && parse(text) == Some(v)
  {
    if NumberAfter(tail, accept, parse) == Some(v) {
      var text := NumberShows(tail, chars, accept, parse);
    }
    forall text | ShowsText(tail, text, chars) ensures NumberAfter(tail, accept, parse) == parse(text) {
      ShownIsRead(tail, text, chars, accept, parse);
    }
  }

  lemma NumberShows<N>(tail: string, chars: string, accept: char -> bool, parse: string -> Option<N>)
    returns (text: string)
    requires Accepts(accept, chars) && NumberAfter(tail, accept, parse).Some?
    ensures ShowsText(tail, text, chars) && parse(text) == NumberAfter(tail, accept, parse)
  {
    var t := LStrip(tail);
    var w1 := LStripSplit(tail);
    var num := LStrip(t[1..]);
    var w2 := LStripSplit(t[1..]);
    text := TakeWhile(num, accept);
    var rest := TakeWhileSplit(num, accept);
    TakeWhileOfRStrip(num, accept);
    assert text == "" ==> num == rest;
    assert Ends(text, rest, chars);
    Assembled(w1, t, w2, text, rest);
    assert tail == w1 + ":" + w2 + text + rest;
  }

  lemma Assembled(w1: string, t: string, w2: string, text: string, rest: string)
    requires t != "" && t[0] == ':' && t[1..] == w2 + (text + rest)
    ensures w1 + t == w1 + ":" + w2 + text + rest
  {
    assert t == ":" + (w2 + (text + rest));
    assert w1 + ":" + w2 + text + rest == w1 + (":" + (w2 + (text + rest)));
  }

  lemma ShownIsRead<N>(tail: string, text: string, chars: string, accept: char -> bool, parse: string -> Option<N>)
    requires Accepts(accept, chars) && ShowsText(tail, text, chars)
    ensures NumberAfter(tail, accept, parse) == parse(text)
  {
    var w1, w2, rest :|
      AllSpace(w1) && AllSpace(w2) && Ends(text, rest, chars) && tail == w1 + ":" + w2 + text + rest;
    var num := text + rest;
    assert tail == w1 + (":" + (w2 + num));
    LStripOf(w1, ":" + (w2 + num));
    assert (":" + (w2 + num))[1..] == w2 + num;
    assert num != "" ==> num[0] == if text != "" then text[0] else rest[0];
    assert text != "" ==> text[0] in text;
    LStripOf(w2, num);
    TakeWhileOfRStrip(num, accept);
    TakeWhileOf(text, rest, accept);
  }

  lemma ReadingIsShown<N>(
      out: string, key: string, i: nat, chars: string, accept: char -> bool, parse: string -> Option<N>, v: N)
    requires Accepts(accept, chars)
    ensures Shows(out, key, i, chars, parse, v)
            <==> MatchAt(out, Marker(key), i) && Reading(out, key, i, accept, parse) == Some(v)
  {
    var m := Marker(key);
    if MatchAt(out, m, i) {
      var tail := out[i + |m|..];
      assert out[i..] == "\"" + key + "\"" + tail;
      NumberIsShown(tail, chars, accept, parse, v);
      forall other | out[i..] == "\"" + key + "\"" + other ensures other == tail {
        assert other == out[i..][|m|..];
      }
    }
    forall tail | i <= |out| && out[i..] == m + tail ensures MatchAt(out, m, i) {
      assert out[i..i + |m|] == out[i..][..|m|];
    }
  }

  lemma LastReadingIsShown<N(!new)>(
      out: string, key: string, chars: string, accept: char -> bool, parse: string -> Option<N>, r: Option<N>)
    requires Accepts(accept, chars) && LastReading(out, key, accept, parse, r)
    ensures LastShown(out, key, chars, parse, r)
  {
    forall n: nat, v
      ensures Shows(out, key, n, chars, parse, v)
              <==> MatchAt(out, Marker(key), n) && Reading(out, key, n, accept, parse) == Some(v)
    {
      ReadingIsShown(out, key, n, chars, accept, parse, v);
    }
  }

  lemma ReadingsAreShown<N(!new)>(
      out: string, keys: seq<string>, chars: string, accept: char -> bool, parse: string -> Option<N>, r: Option<N>)
    requires Accepts(accept, chars) && FirstKeyWithReading(out, keys, accept, parse, r)
    ensures FirstKeyShown(out, keys, chars, parse, r)
  {
    forall key, q | key in keys && LastReading(out, key, accept, parse, q)
      ensures LastShown(out, key, chars, parse, q)
    {
      LastReadingIsShown(out, key, chars, accept, parse, q);
    }
  }

  ghost predicate Occurs(out: string, key: string, m: nat) {
    m <= |out| && "\"" + key + "\"" <= out[m..]
  }

  /** No earlier key occurs in the output, and the k-th occurs last after the first `n` characters. */
  ghost predicate LastOccurrence(out: string, keys: seq<string>, k: nat, n: nat)
    requires k < |keys|
  {
    && (forall j, m: nat | 0 <= j < k :: !Occurs(out, keys[j], m))
    && (forall m: nat | n < m :: !Occurs(out, keys[k], m))
  }

  /**
    A number in an output is read: after the key, a colon and any white space around it, the decimal
    numeral of `n`, when no marker of the key comes later and none of an earlier key occurs.
   */
  lemma NumeralIsRead(
      out: string, keys: seq<string>, k: nat, before: string, w1: string, w2: string, n: nat, rest: string,
      r: Option<nat>)
    requires k < |keys| && LastOccurrence(out, keys, k, |before|) && AllSpace(w1) && AllSpace(w2)
    requires out == before + ("\"" + keys[k] + "\"" + (w1 + ":" + w2 + Numeral(n) + rest))
    requires rest != "" ==> !('0' <= rest[0] <= '9')
    requires FirstKeyShown(out, keys, "0123456789", Integer, r)
    ensures r == Some(n)
  {
    NumeralRoundTrip(n);
    DigitCharacters();
    assert Numeral(n) != "";
    TextIsRead(out, keys, k, before, w1, w2, Numeral(n), rest, "0123456789", Integer, r);
  }

  /** The same for any text over the characters of a number, such as those of a cost: all of it is parsed. */
  lemma TextIsRead<N(!new)>(
      out: string, keys: seq<string>, k: nat, before: string, w1: string, w2: string, text: string, rest: string,
      chars: string, parse: string -> Option<N>, r: Option<N>)
    requires k < |keys| && LastOccurrence(out, keys, k, |before|) && AllSpace(w1) && AllSpace(w2)
    requires out == before + ("\"" + keys[k] + "\"" + (w1 + ":" + w2 + text + rest))
    requires text != "" && (forall c | c in text :: c in chars) && (rest != "" ==> rest[0] !in chars)
    requires (forall c | c in chars :: !IsSpace(c)) && parse(text).Some?
    requires FirstKeyShown(out, keys, chars, parse, r)
    ensures r == parse(text)
  {
    var tail := w1 + ":" + w2 + text + rest;
    assert out[|before|..] == "\"" + keys[k] + "\"" + tail;
    assert Ends(text, rest, chars) && ShowsText(tail, text, chars);
    assert Shows(out, keys[k], |before|, chars, parse, parse(text).value);
    OneShown(out, keys, k, |before|, chars, parse, r);
    var text', tail' :|
      out[|before|..] == "\"" + keys[k] + "\"" + tail' && ShowsText(tail', text', chars) && parse(text') == r;
    assert tail' == out[|before|..][|keys[k]| + 2..] == tail;
    var accept := (c: char) => c in chars;
    ShownIsRead(tail, text, chars, accept, parse);
    ShownIsRead(tail, text', chars, accept, parse);
  }

  /** When the last occurrence of the first key that occurs shows something, it is what is found. */
  lemma OneShown<N(!new)>(
      out: string, keys: seq<string>, k: nat, n: nat, chars: string, parse: string -> Option<N>, r: Option<N>)
    requires k < |keys| && LastOccurrence(out, keys, k, n) && FirstKeyShown(out, keys, chars, parse, r)
    requires exists v :: Shows(out, keys[k], n, chars, parse, v)
    ensures r.Some? && Shows(out, keys[k], n, chars, parse, r.value)
  {
    forall key, m: nat, v | Shows(out, key, m, chars, parse, v) ensures Occurs(out, key, m) {
      var text, tail :| out[m..] == "\"" + key + "\"" + tail && ShowsText(tail, text, chars);
    }
    assert !LastShown(out, keys[k], chars, parse, None);
    assert keys[k] in keys;
    var k' :|
      && 0 <= k' < |keys| && LastShown(out, keys[k'], chars, parse, r)
      && forall j | 0 <= j < k' :: LastShown(out, keys[j], chars, parse, None);
    var m: nat :| Shows(out, keys[k'], m, chars, parse, r.value)
      && forall m', v | m < m' :: !Shows(out, keys[k'], m', chars, parse, v);
    assert k' == k && m == n;
  }
}
