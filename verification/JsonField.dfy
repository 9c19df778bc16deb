/** Field extraction from JSON text: the first `"key":`, then a quoted text or an integer. */
module JsonField {
  import opened Decimal
  import opened CStrings

  const QUOTE := '"'

  /** What `snprintf` leaves of `"key":` in a buffer of 36 characters. */
  function SearchKey(key: string): string {
    var s := [QUOTE] + key + [QUOTE, ':'];
    if |s| <= 35 then s else s[..35]
  }

  /** `isspace` in the C locale. */
  predicate IsSpace(c: char) { c == ' ' || '\t' <= c <= '\r' }

  lemma SpacesAre(c: char)
    ensures IsSpace(c) <==> c as int in {9, 10, 11, 12, 13, 32}
  {
  }

  predicate AllSpace(s: string) { forall i :: 0 <= i < |s| ==> IsSpace(s[i]) }

  /** The position of the first character that is not white space. */
  function SkipSpace(s: string, i: nat): (j: nat)
    requires i <= |s|
    ensures i <= j <= |s| && AllSpace(s[i..j]) && (j < |s| ==> !IsSpace(s[j]))
    decreases |s| - i
  {
    if i == |s| || !IsSpace(s[i]) then i
    else
      var j := SkipSpace(s, i + 1);
      assert s[i..j] == [s[i]] + s[i + 1..j];
      j
  }

  // ---- strtol with base 10 (section 7.22.1.4 of ISO/IEC 9899:2011), after white space ----

  /** Length of the longest prefix of digits. */
  function DigitRun(s: string): (n: nat)
    ensures n <= |s| && AllDigits(s[..n]) && (n < |s| ==> !IsDigit(s[n]))
  {
    if s == [] || !IsDigit(s[0]) then 0
    else
      var n := 1 + DigitRun(s[1..]);
      assert s[..n] == [s[0]] + s[1..][..n - 1];
      n
  }

  function SignLength(s: string): nat { if s != [] && (s[0] == '-' || s[0] == '+') then 1 else 0 }

  /** The range of `long` when LONG_MAX is `max`. */
  function Lowest(max: nat): int { 0 - max as int - 1 }

  function Clamp(n: int, max: nat): (c: int)
    ensures Lowest(max) <= c <= max
    ensures Lowest(max) <= n <= max ==> c == n
  {
    if n > max then max else if n < Lowest(max) then Lowest(max) else n
  }

  function Signed(negative: bool, digits: string): int
    requires AllDigits(digits)
  {
    if negative then 0 - Value(digits) as int else Value(digits)
  }

  datatype Parsed = Parsed(num: int, used: nat)

  /** The number read and how many characters it took: 0 and none when no digit follows the sign. */
  function Strtol(s: string, max: nat): (p: Parsed)
    ensures p.used <= |s|
    ensures Lowest(max) <= p.num <= max
  {
    var sign := SignLength(s);
    var n := DigitRun(s[sign..]);
    if n == 0 then Parsed(0, 0)
    else Parsed(Clamp(Signed(s[0] == '-', s[sign..][..n]), max), sign + n)
  }

  // ---- extraction ----

  datatype Extracted = Missing | Quoted(text: string) | Numeric(text: string, used: nat)

  /** Position of the value, white space skipped, or -1. */
  function ValueStart(json: string, key: string): (i: int)
    ensures i == -1 || 0 <= i <= |json|
  {
    var k := FindText(json, SearchKey(key), 0);
    if k < 0 then -1 else SkipSpace(json, k + |SearchKey(key)|)
  }

  function ExtractAt(json: string, i: nat, max: nat): Extracted
    requires i <= |json|
  {
    if i < |json| && json[i] == QUOTE then
      var rest := json[i + 1..];
      var n := Find(rest, QUOTE);
      if n < |rest| then Quoted(rest[..n]) else Missing
    else
      var p := Strtol(json[i..], max);
      Numeric(Print(p.num), p.used)
  }

  function Extract(json: string, key: string, max: nat): Extracted {
    var i := ValueStart(json, key);
    if i < 0 then Missing else ExtractAt(json, i, max)
  }

  /** The return value. */
  function Code(e: Extracted): nat {
    match e
    case Missing => 0
    case Quoted(text) => |text|
    case Numeric(_, used) => used
  }

  lemma {:induction false} PrintNoNul(n: int)
    ensures NUL !in Print(n)
  {
    var digits := PrintNat(if n < 0 then -n else n);
    assert forall i :: 0 <= i < |digits| ==> IsDigit(digits[i]);
  }

  lemma StartOf(json: string, key: string, max: nat)
    ensures var k := FindText(json, SearchKey(key), 0);
      if k < 0 then Extract(json, key, max) == Missing && Code(Extract(json, key, max)) == 0
      else k + |SearchKey(key)| <= |json| && ValueStart(json, key) == SkipSpace(json, k + |SearchKey(key)|)
  {
    hide SearchKey, SkipSpace, FindText, ExtractAt;
  }

  lemma SkipStep(s: string, i: nat)
    requires i <= |s|
    ensures SkipSpace(s, i) == if i < |s| && IsSpace(s[i]) then SkipSpace(s, i + 1) else i
  {
  }

  /** The three outcomes at the value's start `i`. */
  lemma Dispatch(json: string, key: string, i: nat, max: nat)
    requires ValueStart(json, key) == i <= |json|
    ensures var e := Extract(json, key, max);
      if i < |json| && json[i] == QUOTE then
        var rest := json[i + 1..];
        var n := Find(rest, QUOTE);
        e == (if n < |rest| then Quoted(rest[..n]) else Missing) && Code(e) == if n < |rest| then n else 0
      else
        var p := Strtol(json[i..], max);
        e == Numeric(Print(p.num), p.used) && Code(e) == p.used
  {
    hide Strtol, Print, ValueStart, Find;
  }

  method ExtractJsonValue(json: string, key: string, value: array<char>, max: nat) returns (code: nat)
    requires NUL !in json
    requires !Extract(json, key, max).Missing? ==> |Extract(json, key, max).text| < value.Length
    modifies value
    ensures code == Code(Extract(json, key, max))
    ensures match Extract(json, key, max)
      case Missing => value[..] == old(value[..])
      case Quoted(text) => Text(value[..]) == text
      case Numeric(text, _) => Text(value[..]) == text
  {
    StartOf(json, key, max);
    hide *;
    var searchKey := SearchKey(key);
    var keyPos := FindText(json, searchKey, 0);
    if keyPos < 0 {
      return 0;
    }
    var valueStart: nat := keyPos + |searchKey|;
    SkipStep(json, valueStart);
    while valueStart < |json| && IsSpace(json[valueStart])
      invariant keyPos + |searchKey| <= valueStart <= |json|
      invariant ValueStart(json, key) == SkipSpace(json, valueStart)
      invariant value[..] == old(value[..])
    {
      SkipStep(json, valueStart);
      valueStart := valueStart + 1;
    }
    SkipStep(json, valueStart);
    Dispatch(json, key, valueStart, max);
    if valueStart < |json| && json[valueStart] == QUOTE {
      var rest := json[valueStart + 1..];
      var len := Find(rest, QUOTE);
      if len < |rest| {
        assert rest[..len] == json[valueStart + 1..valueStart + 1 + len];
        CopyText(value, rest[..len]);
        return len;
      }
    } else {
      var p := Strtol(json[valueStart..], max);
      PrintNoNul(p.num);
      CopyText(value, Print(p.num));
      return p.used;
    }
    return 0;
  }

  // ---- properties ----

  /** The first non-space position after `space` is where the rest begins. */
  lemma {:induction false} SkipsExactly(s: string, i: nat, j: nat)
    requires i <= j <= |s| && AllSpace(s[i..j]) && (j < |s| ==> !IsSpace(s[j]))
    ensures SkipSpace(s, i) == j
    decreases j - i
  {
    if i < j {
      assert s[i..j][0] == s[i];
      assert s[i + 1..j] == s[i..j][1..];
      SkipsExactly(s, i + 1, j);
    }
  }

  /** A document in which `"key":` first occurs after `before`, followed by white space. */
  ghost predicate FirstField(json: string, key: string, before: string, space: string, rest: string) {
    && json == before + SearchKey(key) + space + rest
    && AllSpace(space) && (rest != [] ==> !IsSpace(rest[0]))
    && forall k: nat :: k < |before| ==> !OccursAt(json, SearchKey(key), k)
  }

  lemma FirstFieldStart(json: string, key: string, before: string, space: string, rest: string)
    requires FirstField(json, key, before, space, rest)
    ensures ValueStart(json, key) == |before| + |SearchKey(key)| + |space|
    ensures json[ValueStart(json, key)..] == rest
  {
    var n := SearchKey(key);
    var i, j := |before| + |n|, |before| + |n| + |space|;
    assert json[|before|..i] == n;
    assert OccursAt(json, n, |before|);
    assert json[i..j] == space;
    assert json[j..] == rest;
    assert j < |json| ==> json[j] == rest[0];
    SkipsExactly(json, i, j);
  }

  lemma Quarters(s: string, i: nat, j: nat, k: nat)
    requires i <= j <= k <= |s|
    ensures s == s[..i] + s[i..j] + s[j..k] + s[k..]
  {
  }

  /** Every found key has such a reading. */
  lemma FieldReading(json: string, key: string) returns (before: string, space: string, rest: string)
    requires ValueStart(json, key) >= 0
    ensures FirstField(json, key, before, space, rest)
  {
    var n := SearchKey(key);
    var k := FindText(json, n, 0);
    var j := SkipSpace(json, k + |n|);
    hide SearchKey, SkipSpace, FindText, ValueStart, IsSpace;
    before, space, rest := json[..k], json[k + |n|..j], json[j..];
    Quarters(json, k, k + |n|, j);
  }

  lemma QuotedRest(rest: string, text: string, max: nat)
    ensures ExtractAt(rest, 0, max) == Quoted(text)
      <==> QUOTE !in text && exists after: string :: rest == [QUOTE] + text + [QUOTE] + after
  {
    hide Strtol;
    if QUOTE !in text && exists after: string :: rest == [QUOTE] + text + [QUOTE] + after {
      var after: string :| rest == [QUOTE] + text + [QUOTE] + after;
      assert rest[1..] == text + [QUOTE] + after;
      FindUnique(text, QUOTE, after);
    }
    if ExtractAt(rest, 0, max) == Quoted(text) {
      var tail := rest[1..];
      var n := Find(tail, QUOTE);
      assert rest == [QUOTE] + tail[..n] + [QUOTE] + tail[n + 1..];
    }
  }

  lemma ExtractRest(json: string, i: nat, max: nat)
    requires i <= |json|
    ensures ExtractAt(json, i, max) == ExtractAt(json[i..], 0, max)
  {
    assert json[i..][0..] == json[i..];
    if i < |json| {
      assert json[i..][1..] == json[i + 1..];
    }
  }

  lemma ExtractFound(json: string, key: string, max: nat)
    requires ValueStart(json, key) >= 0
    ensures Extract(json, key, max) == ExtractAt(json, ValueStart(json, key), max)
  {
  }

  lemma ExtractField(json: string, key: string, before: string, space: string, rest: string, max: nat)
    requires FirstField(json, key, before, space, rest)
    ensures ValueStart(json, key) >= 0 && Extract(json, key, max) == ExtractAt(rest, 0, max)
  {
    FirstFieldStart(json, key, before, space, rest);
    hide *;
    ExtractRest(json, ValueStart(json, key), max);
    ExtractFound(json, key, max);
  }

  lemma UnquotedAt(rest: string, max: nat)
    requires rest != [] ==> rest[0] != QUOTE
    ensures ExtractAt(rest, 0, max) == Numeric(Print(Strtol(rest, max).num), Strtol(rest, max).used)
  {
    assert rest[0..] == rest;
    hide Strtol, Print;
  }

  /** A quoted field: the value extracted is exactly the text between the first quote and the next one. */
  lemma QuotedField(json: string, key: string, before: string, space: string, rest: string, text: string, max: nat)
    requires FirstField(json, key, before, space, rest)
    ensures Extract(json, key, max) == Quoted(text)
      <==> QUOTE !in text && exists after: string :: rest == [QUOTE] + text + [QUOTE] + after
  {
    hide *;
    ExtractField(json, key, before, space, rest, max);
    QuotedRest(rest, text, max);
  }

  // ---- keys ----

  const KEY_LIMIT := 32

  function QuotedText(text: string, after: string): string { [QUOTE] + (text + ([QUOTE] + after)) }

  /** What follows the key in a field. */
  function Rest(space: string, text: string, after: string): string { space + QuotedText(text, after) }

  /** A quoted field of a document: `"key":`, white space, `"text"`. */
  predicate IsField(json: string, before: string, key: string, space: string, text: string, after: string) {
    && QUOTE !in key && QUOTE !in text && AllSpace(space)
    && json == before + (([QUOTE] + key) + ([QUOTE, ':'] + Rest(space, text, after)))
  }

  /** The text searched for does not occur earlier. */
  ghost predicate NotBefore(json: string, key: string, before: string) {
    forall k: nat :: k < |before| ==> !OccursAt(json, SearchKey(key), k)
  }

  /** What follows the text searched for, when `rest` follows the key. */
  function Tail(key: string, rest: string): string {
    if |key| <= KEY_LIMIT then rest
    else if |key| == KEY_LIMIT + 1 then [':'] + rest
    else key[KEY_LIMIT + 2..] + ([QUOTE, ':'] + rest)
  }

  lemma SearchKeyIs(key: string)
    ensures SearchKey(key) ==
      if |key| <= KEY_LIMIT then ([QUOTE] + key) + [QUOTE, ':']
      else if |key| == KEY_LIMIT + 1 then ([QUOTE] + key) + [QUOTE]
      else [QUOTE] + key[..KEY_LIMIT + 2]
  {
  }

  lemma Regroup(a: string, b: string, c: string)
    ensures a + (b + c) == (a + b) + c
  {
  }

  lemma FieldTail(key: string, rest: string)
    ensures ([QUOTE] + key) + ([QUOTE, ':'] + rest) == SearchKey(key) + Tail(key, rest)
  {
    SearchKeyIs(key);
    hide SearchKey;
    if |key| <= KEY_LIMIT {
      Regroup([QUOTE] + key, [QUOTE, ':'], rest);
    } else if |key| == KEY_LIMIT + 1 {
      assert [QUOTE, ':'] == [QUOTE] + [':'];
      Regroup([QUOTE], [':'], rest);
      Regroup([QUOTE] + key, [QUOTE], [':'] + rest);
    } else {
      var head, left := key[..KEY_LIMIT + 2], key[KEY_LIMIT + 2..];
      assert key == head + left;
      Regroup([QUOTE], head, left);
      Regroup([QUOTE] + head, left, [QUOTE, ':'] + rest);
    }
  }

  /** White space up to a character that is none. */
  lemma SplitSpace(s: string) returns (space: string, rest: string)
    ensures s == space + rest && AllSpace(space) && (rest != [] ==> !IsSpace(rest[0]))
  {
    var j := SkipSpace(s, 0);
    space, rest := s[..j], s[j..];
    assert s[0..j] == s[..j];
  }

  /** Extraction goes on after the searched text and white space. */
  lemma ExtractTail(json: string, key: string, before: string, space: string, rest: string, max: nat)
    requires json == before + (SearchKey(key) + (space + rest)) && NotBefore(json, key, before)
    requires AllSpace(space) && (rest != [] ==> !IsSpace(rest[0]))
    ensures Extract(json, key, max) == ExtractAt(rest, 0, max)
  {
    Regroup(before, SearchKey(key), space + rest);
    Regroup(before + SearchKey(key), space, rest);
    hide SearchKey, AllSpace;
    FirstFieldStart(json, key, before, space, rest);
    ExtractRest(json, ValueStart(json, key), max);
    ExtractFound(json, key, max);
    hide *;
  }

  lemma QuotedValue(text: string, after: string, max: nat)
    requires QUOTE !in text
    ensures ExtractAt(QuotedText(text, after), 0, max) == Quoted(text)
  {
    var rest := QuotedText(text, after);
    hide Strtol;
    assert rest[1..] == text + [QUOTE] + after;
    FindUnique(text, QUOTE, after);
  }

  /** The field's start: where the searched text is, and what follows it. */
  lemma FieldStart(json: string, before: string, key: string, space: string, text: string, after: string)
    requires IsField(json, before, key, space, text, after)
    ensures json == before + (SearchKey(key) + Tail(key, Rest(space, text, after)))
  {
    FieldTail(key, Rest(space, text, after));
    hide SearchKey, Tail, Rest;
  }

  lemma NotBlank(left: string, space: string, rest: string)
    requires left == space + rest && rest != [] && !IsSpace(rest[0])
    ensures !AllSpace(left)
  {
    assert left[|space|] == rest[0];
  }

  /** Of a key of 34 characters or more only the quote and the first 34 are searched for. When the rest is blank, its
      closing quote is taken for the value's opening one. */
  lemma LongKey(json: string, before: string, key: string, space: string, text: string, after: string, max: nat)
    requires IsField(json, before, key, space, text, after) && NotBefore(json, key, before)
    requires |key| >= 34
    ensures if AllSpace(key[34..]) then Extract(json, key, max) == Quoted([':'] + space)
      else Extract(json, key, max).Numeric?
  {
    FieldStart(json, before, key, space, text, after);
    var left, more := key[KEY_LIMIT + 2..], [QUOTE, ':'] + Rest(space, text, after);
    var blank, rest := SplitSpace(left);
    assert QUOTE !in space;
    Regroup(blank, rest, more);
    hide SearchKey, Extract, NotBefore, Strtol;
    if rest == [] {
      assert left == blank && rest + more == more;
      ColonText(space, text, after);
      assert !IsSpace(more[0]);
      ExtractTail(json, key, before, blank, more, max);
      QuotedValue([':'] + space, QuotedText(text, after)[1..], max);
    } else {
      NotBlank(left, blank, rest);
      assert (rest + more)[0] == rest[0] == left[|blank|] == key[KEY_LIMIT + 2 + |blank|];
      ExtractTail(json, key, before, blank, rest + more, max);
    }
  }

  lemma ColonText(space: string, text: string, after: string)
    ensures [QUOTE, ':'] + Rest(space, text, after) == QuotedText([':'] + space, QuotedText(text, after)[1..])
  {
    var qt := QuotedText(text, after);
    assert qt == [QUOTE] + qt[1..];
    assert [QUOTE, ':'] + (space + qt) == [QUOTE] + (([':'] + space) + qt);
  }

  /** Of a key of 33 characters the colon is not searched for, and is read as a number. */
  lemma KeyWithoutColon(json: string, before: string, key: string, space: string, text: string, after: string, max: nat)
    requires IsField(json, before, key, space, text, after) && NotBefore(json, key, before)
    requires |key| == 33
    ensures Extract(json, key, max) == Numeric("0", 0)
  {
    FieldStart(json, before, key, space, text, after);
    var tail := [':'] + Rest(space, text, after);
    hide SearchKey, Rest, Extract, NotBefore;
    assert [] + tail == tail && tail[0] == ':' && tail[0..] == tail;
    ExtractTail(json, key, before, [], tail, max);
    assert Strtol(tail, max) == Parsed(0, 0);
  }

  /** A quoted field comes back exactly when its key has at most 32 characters, but for one accident: a longer key
      that is blank after its 34th character, and a text that is a colon and the field's own white space. */
  lemma FieldComesBackIff(json: string, before: string, key: string, space: string, text: string, after: string,
                          max: nat)
    requires IsField(json, before, key, space, text, after) && NotBefore(json, key, before)
    ensures Extract(json, key, max) == Quoted(text) <==>
      |key| <= 32 || (|key| >= 34 && AllSpace(key[34..]) && text == [':'] + space)
  {
    hide SearchKey, Extract, NotBefore, ExtractAt;
    if |key| <= KEY_LIMIT {
      FieldStart(json, before, key, space, text, after);
      assert !IsSpace(QUOTE);
      ExtractTail(json, key, before, space, QuotedText(text, after), max);
      QuotedValue(text, after, max);
    } else if |key| == KEY_LIMIT + 1 {
      KeyWithoutColon(json, before, key, space, text, after, max);
    } else {
      LongKey(json, before, key, space, text, after, max);
    }
  }

  /** Concretely: the value of a key of 34 characters is read as ":" instead of "on". */
  lemma LongKeyExample(max: nat)
    ensures var key := "seconds_between_two_measurements_x";
      Extract(['"'] + key + ['"', ':', '"'] + "on" + ['"'], key, max) == Quoted(":")
  {
    var key := "seconds_between_two_measurements_x";
    var json := [QUOTE] + key + [QUOTE, ':', QUOTE] + "on" + [QUOTE];
    assert QUOTE !in key && QUOTE !in "on" && AllSpace([]) && AllSpace(key[34..]);
    assert json == [] + (([QUOTE] + key) + ([QUOTE, ':'] + Rest([], "on", [])));
    hide Extract, SearchKey;
    LongKey(json, [], key, [], "on", [], max);
    assert [':'] + [] == ":";
  }

  // ---- printing and parsing integers ----

  lemma {:induction false} RunOfDigits(d: string, rest: string)
    requires AllDigits(d) && (rest != [] ==> !IsDigit(rest[0]))
    ensures DigitRun(d + rest) == |d|
  {
    if d == [] {
      assert d + rest == rest;
    } else {
      assert (d + rest)[1..] == d[1..] + rest;
      RunOfDigits(d[1..], rest);
    }
  }

  /** What is read from an optional sign and a maximal run of digits: its value, clamped to `long`. */
  lemma ParseDigits(sign: string, d: string, rest: string, max: nat)
    requires sign == "" || sign == "+" || sign == "-"
    requires AllDigits(d) && d != [] && (rest != [] ==> !IsDigit(rest[0]))
    ensures Strtol(sign + (d + rest), max) == Parsed(Clamp(Signed(sign == "-", d), max), |sign| + |d|)
    ensures var v: int := if sign == "-" then 0 - Value(d) else Value(d);
      Strtol(sign + (d + rest), max).num == if v > max then max else if v < 0 - max - 1 then 0 - max - 1 else v
  {
    hide Value;
    var s := sign + (d + rest);
    assert IsDigit(d[0]) && (d + rest)[0] == d[0];
    assert SignLength(s) == |sign| && s[|sign|..] == d + rest;
    RunOfDigits(d, rest);
    assert (d + rest)[..|d|] == d;
    assert s[0] == '-' <==> sign == "-";
  }

  /** A printed `long`, followed by anything but a digit, is read back. */
  lemma ParsePrinted(n: int, rest: string, max: nat)
    requires Lowest(max) <= n <= max && (rest != [] ==> !IsDigit(rest[0]))
    ensures Strtol(Print(n) + rest, max) == Parsed(n, |Print(n)|)
  {
    var m := if n < 0 then -n else n;
    var sign := if n < 0 then "-" else "";
    hide Strtol;
    ParseDigits(sign, PrintNat(m), rest, max);
    ValueOfPrintNat(m);
    assert Print(n) == sign + PrintNat(m);
    assert Print(n) + rest == sign + (PrintNat(m) + rest);
  }

  /** What parsing and printing produce is a fixed point of parsing and printing. */
  lemma PrintParseIdempotent(s: string, max: nat)
    ensures var once := Print(Strtol(s, max).num); Strtol(once, max) == Parsed(Strtol(s, max).num, |once|)
  {
    var once := Print(Strtol(s, max).num);
    assert once + [] == once;
    ParsePrinted(Strtol(s, max).num, [], max);
  }

  /** An unquoted field: an optional sign and a maximal run of digits yield the canonical text of their value, clamped
      to the range of `long`, and their length. */
  lemma NumericField(json: string, key: string, before: string, space: string, sign: string, d: string, after: string,
                     max: nat)
    requires FirstField(json, key, before, space, sign + (d + after))
    requires sign == "" || sign == "+" || sign == "-"
    requires AllDigits(d) && d != [] && (after != [] ==> !IsDigit(after[0]))
    ensures Extract(json, key, max) == Numeric(Print(Clamp(Signed(sign == "-", d), max)), |sign| + |d|)
  {
    var rest := sign + (d + after);
    assert IsDigit(d[0]) && rest[0] == (if sign == "" then d[0] else sign[0]) && rest[0] != QUOTE;
    hide *;
    ExtractField(json, key, before, space, rest, max);
    UnquotedAt(rest, max);
    ParseDigits(sign, d, after, max);
  }

  /** An unquoted field that does not begin with a number yields 0 and consumes nothing. */
  lemma NoNumber(json: string, key: string, before: string, space: string, rest: string, max: nat)
    requires FirstField(json, key, before, space, rest)
    requires rest != [] ==> rest[0] != QUOTE
    requires SignLength(rest) == |rest| || !IsDigit(rest[SignLength(rest)])
    ensures Extract(json, key, max) == Numeric("0", 0)
  {
    assert Strtol(rest, max) == Parsed(0, 0) && Print(0) == "0";
    hide *;
    ExtractField(json, key, before, space, rest, max);
    UnquotedAt(rest, max);
  }

  /** A numeric field: a document with a printed integer under the key yields that integer's text and length. */
  lemma PrintedField(json: string, key: string, before: string, space: string, n: int, after: string, max: nat)
    requires Lowest(max) <= n <= max && (after != [] ==> !IsDigit(after[0]))
    requires FirstField(json, key, before, space, Print(n) + after)
    ensures Extract(json, key, max) == Numeric(Print(n), |Print(n)|)
  {
    var digits := PrintNat(if n < 0 then -n else n);
    assert IsDigit(digits[0]) && (Print(n) + after)[0] == Print(n)[0] && Print(n)[0] != QUOTE;
    hide *;
    ExtractField(json, key, before, space, Print(n) + after, max);
    UnquotedAt(Print(n) + after, max);
    ParsePrinted(n, after, max);
  }

  /** Exactly when the caller is told that nothing was found. */
  lemma ZeroMeans(json: string, key: string, max: nat)
    ensures Code(Extract(json, key, max)) == 0 <==>
      (match Extract(json, key, max)
       case Missing => true
       case Quoted(text) => text == ""
       case Numeric(_, _) =>
         var rest := json[ValueStart(json, key)..];
         var s := SignLength(rest);
         s == |rest| || !IsDigit(rest[s]))
  {
  }
}
