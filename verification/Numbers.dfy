/**
 * Parsing of numbers with thousands separators. Digits are the ASCII digits; a decimal number is
 * kept exactly, as a coefficient and the count of its fraction digits.
 */
module Numbers {
  import opened Wrappers

  datatype Decimal = Decimal(negative: bool, coefficient: nat, scale: nat)

  datatype NumberError = Empty | ManyPoints | BadFraction | MixedSeparators | BadGrouping | BadFormat

  datatype Separator = Comma | Space

  predicate IsDigit(c: char) { '0' <= c <= '9' }

  /** Space, no-break space and narrow no-break space. */
  predicate IsGap(c: char) { c == ' ' || c == '\U{00A0}' || c == '\U{202F}' }

  predicate IsSeparator(kind: Separator, c: char) { if kind.Comma? then c == ',' else IsGap(c) }

  /** The characters that `str.strip()` removes. */
  predicate IsWhitespace(c: char) {
    || IsGap(c) || '\U{0009}' <= c <= '\U{000D}' || '\U{001C}' <= c <= '\U{001F}' || c == '\U{0085}'
    || c == '\U{1680}' || '\U{2000}' <= c <= '\U{200A}' || c == '\U{2028}' || c == '\U{2029}'
    || c == '\U{205F}' || c == '\U{3000}'
  }

  predicate AllDigits(s: string) { forall i :: 0 <= i < |s| ==> IsDigit(s[i]) }

  predicate Has(s: string, kind: Separator) { exists i :: 0 <= i < |s| && IsSeparator(kind, s[i]) }

  function StripLeft(s: string): string {
    if s != [] && IsWhitespace(s[0]) then StripLeft(s[1..]) else s
  }

  function StripRight(s: string): string {
    if s != [] && IsWhitespace(s[|s| - 1]) then StripRight(s[..|s| - 1]) else s
  }

  function Strip(s: string): string { StripRight(StripLeft(s)) }

  function Points(s: string): nat {
    if s == [] then 0 else (if s[0] == '.' then 1 else 0) + Points(s[1..])
  }

  /** The part before the first point, and the part after it if there is one. */
  function Partition(s: string): (string, Option<string>) {
    if s == [] then ([], None)
    else if s[0] == '.' then ([], Some(s[1..]))
    else
      var (integer, fraction) := Partition(s[1..]);
      ([s[0]] + integer, fraction)
  }

  function SplitOn(s: string, kind: Separator): (groups: seq<string>)
    ensures |groups| >= 1
    ensures |groups| == 1 <==> !Has(s, kind)
    ensures |groups| == 1 ==> groups[0] == s
  {
    if s == [] then [[]]
    else
      var rest := SplitOn(s[1..], kind);
      assert s == [s[0]] + s[1..];
      if IsSeparator(kind, s[0]) then [[]] + rest
      else
        assert Has(s, kind) <==> Has(s[1..], kind) by {
          if Has(s, kind) {
            var i :| 0 <= i < |s| && IsSeparator(kind, s[i]);
            assert IsSeparator(kind, s[1..][i - 1]);
          }
          if Has(s[1..], kind) {
            var i :| 0 <= i < |s[1..]| && IsSeparator(kind, s[1..][i]);
            assert IsSeparator(kind, s[i + 1]);
          }
        }
        [[s[0]] + rest[0]] + rest[1..]
  }

  function Concat(groups: seq<string>): string {
    if groups == [] then [] else groups[0] + Concat(groups[1..])
  }

  predicate WellGrouped(groups: seq<string>)
    requires groups != []
  {
    && groups[0] != [] && |groups[0]| <= 3 && AllDigits(groups[0])
    && forall k :: 1 <= k < |groups| ==> |groups[k]| == 3 && AllDigits(groups[k])
  }

  function DigitValue(c: char): nat { if IsDigit(c) then c as nat - '0' as nat else 0 }

  /** The number a string of digits denotes. */
  function NatOf(s: string): nat {
    if s == [] then 0 else 10 * NatOf(s[..|s| - 1]) + DigitValue(s[|s| - 1])
  }

  function Sign(raw: string): (bool, string) {
    if raw != [] && (raw[0] == '+' || raw[0] == '-') then (raw[0] == '-', raw[1..]) else (false, raw)
  }

  function Parse(text: string): Result<Decimal, NumberError> {
    var raw := Strip(text);
    if raw == [] then Err(Empty)
    else
      var (negative, body) := Sign(raw);
      if Points(body) > 1 then Err(ManyPoints)
      else
        var (integer, fraction) := Partition(body);
        if fraction.Some? && (fraction.value == [] || !AllDigits(fraction.value)) then Err(BadFraction)
        else if Has(integer, Comma) && Has(integer, Space) then Err(MixedSeparators)
        else
          var groups := if Has(integer, Comma) then SplitOn(integer, Comma)
                        else if Has(integer, Space) then SplitOn(integer, Space) else [integer];
          if |groups| > 1 && !WellGrouped(groups) then Err(BadGrouping)
          else if |groups| == 1 && (integer == [] || !AllDigits(integer)) then Err(BadFormat)
          else Ok(Decimal(negative, NatOf(Concat(groups) + fraction.GetOr([])), |fraction.GetOr([])|))
  }

  // ----- which integers are accepted -----

  /** Read from the right: groups of three digits, each preceded by a separator, then one to three. */
  predicate Grouped(s: string, kind: Separator) {
    if |s| <= 3 then s != [] && AllDigits(s)
    else AllDigits(s[|s| - 3..]) && IsSeparator(kind, s[|s| - 4]) && Grouped(s[..|s| - 4], kind)
  }

  function DigitsIn(s: string): string {
    if s == [] then [] else (if IsDigit(s[0]) then [s[0]] else []) + DigitsIn(s[1..])
  }

  /** The number of a text with every other character dropped. */
  predicate Denotes(d: Decimal, text: string) {
    var raw := Strip(text);
    var (negative, body) := Sign(raw);
    var (_, fraction) := Partition(body);
    d == Decimal(negative, NatOf(DigitsIn(raw)), |fraction.GetOr([])|)
  }

  predicate WellFormed(text: string) {
    var raw := Strip(text);
    var (_, body) := Sign(raw);
    var (integer, fraction) := Partition(body);
    && raw != [] && Points(body) <= 1
    && (fraction.Some? ==> fraction.value != [] && AllDigits(fraction.value))
    && ((integer != [] && AllDigits(integer)) || Grouped(integer, Comma) || Grouped(integer, Space))
  }

  lemma {:induction false} DigitsInConcat(a: string, b: string)
    ensures DigitsIn(a + b) == DigitsIn(a) + DigitsIn(b)
  {
    hide IsDigit;
    if a == [] {
      assert a + b == b;
    } else {
      assert (a + b)[1..] == a[1..] + b;
      DigitsInConcat(a[1..], b);
      var head := if IsDigit(a[0]) then [a[0]] else [];
      assert DigitsIn(a + b) == head + DigitsIn(a[1..] + b);
      assert head + (DigitsIn(a[1..]) + DigitsIn(b)) == (head + DigitsIn(a[1..])) + DigitsIn(b);
    }
  }

  lemma {:induction false} DigitsInDigits(s: string)
    requires AllDigits(s)
    ensures DigitsIn(s) == s
  {
    if s != [] {
      DigitsInDigits(s[1..]);
    }
  }

  lemma ConcatFirst(c: char, groups: seq<string>)
    requires groups != []
    ensures Concat([[c] + groups[0]] + groups[1..]) == [c] + Concat(groups)
  {
    assert ([[c] + groups[0]] + groups[1..])[1..] == groups[1..];
    assert [c] + groups[0] + Concat(groups[1..]) == [c] + (groups[0] + Concat(groups[1..]));
  }

  /** Splitting drops nothing but separators. */
  lemma {:induction false} SplitKeepsDigits(s: string, kind: Separator)
    requires forall k :: 0 <= k < |SplitOn(s, kind)| ==> AllDigits(SplitOn(s, kind)[k])
    ensures Concat(SplitOn(s, kind)) == DigitsIn(s)
  {
    if s != [] {
      var rest := SplitOn(s[1..], kind);
      var groups := SplitOn(s, kind);
      if IsSeparator(kind, s[0]) {
        assert groups[1..] == rest;
        forall k | 0 <= k < |rest| ensures AllDigits(rest[k]) { assert rest[k] == groups[k + 1]; }
        SplitKeepsDigits(s[1..], kind);
        assert Concat(groups) == Concat(rest);
      } else {
        assert IsDigit(s[0]) && AllDigits(rest[0]) by {
          assert groups[0] == [s[0]] + rest[0];
          assert groups[0][0] == s[0];
          assert rest[0] == groups[0][1..];
        }
        forall k | 0 <= k < |rest| ensures AllDigits(rest[k]) { if k > 0 { assert rest[k] == groups[k]; } }
        SplitKeepsDigits(s[1..], kind);
        ConcatFirst(s[0], rest);
      }
    }
  }

  /** Splitting at a separator whose right side holds no further one. */
  lemma {:induction false} SplitAtLast(a: string, c: char, b: string, kind: Separator)
    requires IsSeparator(kind, c) && !Has(b, kind)
    ensures SplitOn(a + [c] + b, kind) == SplitOn(a, kind) + [b]
  {
    hide Has, IsSeparator;
    if a == [] {
      assert a + [c] + b == [c] + b;
      assert ([c] + b)[1..] == b;
    } else {
      SplitAtLast(a[1..], c, b, kind);
      assert (a + [c] + b)[1..] == a[1..] + [c] + b;
      assert (a + [c] + b)[0] == a[0];
    }
  }

  /** Grouping read from the right is what splitting from the left finds. */
  lemma {:induction false} GroupedSplits(s: string, kind: Separator)
    requires Grouped(s, kind)
    ensures WellGrouped(SplitOn(s, kind))
    ensures |s| > 3 ==> Has(s, kind)
  {
    if |s| <= 3 {
    } else {
      var front, c, last := s[..|s| - 4], s[|s| - 4], s[|s| - 3..];
      assert s == front + [c] + last;
      GroupedSplits(front, kind);
      assert !Has(last, kind);
      SplitAtLast(front, c, last, kind);
    }
  }

  lemma {:induction false} LastSplit(s: string, kind: Separator) returns (front: string, c: char, last: string)
    requires Has(s, kind)
    ensures s == front + [c] + last && IsSeparator(kind, c) && !Has(last, kind)
  {
    var n := |s| - 1;
    if IsSeparator(kind, s[n]) {
      front, c, last := s[..n], s[n], [];
    } else {
      var i :| 0 <= i < |s| && IsSeparator(kind, s[i]);
      assert s[..n][i] == s[i];
      front, c, last := LastSplit(s[..n], kind);
      last := last + [s[n]];
      assert s == s[..n] + [s[n]];
    }
  }

  lemma {:induction false} SplitsGrouped(s: string, kind: Separator)
    requires WellGrouped(SplitOn(s, kind))
    ensures Grouped(s, kind)
    decreases |s|
  {
    if Has(s, kind) {
      var front, c, last := LastSplit(s, kind);
      SplitAtLast(front, c, last, kind);
      var groups := SplitOn(front, kind);
      assert SplitOn(s, kind)[|groups|] == last;
      assert forall k :: 0 <= k < |groups| ==> SplitOn(s, kind)[k] == groups[k];
      SplitsGrouped(front, kind);
      assert s[|s| - 3..] == last && s[..|s| - 4] == front;
    } else {
      assert SplitOn(s, kind) == [s];
    }
  }

  lemma GroupedHasOneKind(s: string, kind: Separator, other: Separator)
    requires Grouped(s, kind) && other != kind
    ensures !Has(s, other)
  {
    if |s| > 3 {
      GroupedHasOneKind(s[..|s| - 4], kind, other);
      forall i | 0 <= i < |s|
        ensures !IsSeparator(other, s[i])
      {
        if i < |s| - 4 {
          assert s[..|s| - 4][i] == s[i];
        } else if i > |s| - 4 {
          assert s[|s| - 3..][i - (|s| - 3)] == s[i];
        }
      }
    }
  }

  /** What the parser makes of the integer part alone. */
  function IntegerGroups(integer: string): Option<seq<string>> {
    if Has(integer, Comma) && Has(integer, Space) then None
    else
      var groups := if Has(integer, Comma) then SplitOn(integer, Comma)
                    else if Has(integer, Space) then SplitOn(integer, Space) else [integer];
      if |groups| > 1 && !WellGrouped(groups) then None
      else if |groups| == 1 && (integer == [] || !AllDigits(integer)) then None
      else Some(groups)
  }

  lemma IntegerAccepted(integer: string)
    ensures IntegerGroups(integer).Some?
       <==> (integer != [] && AllDigits(integer)) || Grouped(integer, Comma) || Grouped(integer, Space)
    ensures IntegerGroups(integer).Some? ==> Concat(IntegerGroups(integer).value) == DigitsIn(integer)
  {
    if AllDigits(integer) {
      assert !Has(integer, Comma) && !Has(integer, Space);
      DigitsInDigits(integer);
      assert Concat([integer]) == integer;
    }
    if IntegerGroups(integer).Some? && !AllDigits(integer) {
      var kind := if Has(integer, Comma) then Comma else Space;
      SplitsGrouped(integer, kind);
      SplitKeepsDigits(integer, kind);
    }
    if Grouped(integer, Comma) && !AllDigits(integer) {
      GroupedSplits(integer, Comma);
      GroupedHasOneKind(integer, Comma, Space);
    }
    if Grouped(integer, Space) && !AllDigits(integer) {
      GroupedSplits(integer, Space);
      GroupedHasOneKind(integer, Space, Comma);
    }
  }

  lemma {:induction false} PartitionDigits(s: string)
    ensures var (integer, fraction) := Partition(s);
            DigitsIn(s) == DigitsIn(integer) + DigitsIn(fraction.GetOr([]))
  {
    if s != [] && s[0] != '.' {
      hide IsDigit;
      PartitionDigits(s[1..]);
      var (integer, fraction) := Partition(s[1..]);
      var head, end := if IsDigit(s[0]) then [s[0]] else [], DigitsIn(fraction.GetOr([]));
      assert ([s[0]] + integer)[1..] == integer;
      assert DigitsIn([s[0]] + integer) == head + DigitsIn(integer);
      assert head + (DigitsIn(integer) + end) == (head + DigitsIn(integer)) + end;
    }
  }

  /**
   * Acceptance is exact: a text is a number if and only if it is an optional sign, an integer part
   * that is ungrouped or grouped in threes with one kind of separator, and an optional fraction;
   * its value is that of its digits with everything else removed.
   */
  lemma ParseIsExact(text: string)
    ensures Parse(text).Ok? <==> WellFormed(text)
    ensures Parse(text).Ok? ==> Denotes(Parse(text).value, text)
  {
    hide Strip, NatOf, Points, Grouped;
    var raw := Strip(text);
    var (negative, body) := Sign(raw);
    var (integer, fraction) := Partition(body);
    IntegerAccepted(integer);
    PartitionDigits(body);
    assert raw != [] ==> DigitsIn(raw) == DigitsIn(body);
    if fraction.Some? && AllDigits(fraction.value) {
      DigitsInDigits(fraction.value);
    }
  }

  // ----- round trip -----

  function Digits(n: nat): (s: string)
    ensures s != [] && AllDigits(s)
  {
    var last := [('0' as nat + n % 10) as char];
    if n < 10 then last else Digits(n / 10) + last
  }

  /** Insert a separator before every third digit from the right. */
  function Group(digits: string, c: char): string {
    if |digits| <= 3 then digits else Group(digits[..|digits| - 3], c) + [c] + digits[|digits| - 3..]
  }

  function Render(sign: string, n: nat, c: char, fraction: Option<string>): string {
    sign + Group(Digits(n), c) + (if fraction.Some? then "." + fraction.value else "")
  }

  lemma {:induction false} NatOfDigits(n: nat)
    ensures NatOf(Digits(n)) == n
  {
    if n >= 10 {
      NatOfDigits(n / 10);
      var s := Digits(n);
      assert s[..|s| - 1] == Digits(n / 10);
    }
  }

  function Power10(k: nat): nat { if k == 0 then 1 else 10 * Power10(k - 1) }

  lemma {:induction false} NatOfConcat(a: string, b: string)
    ensures NatOf(a + b) == NatOf(a) * Power10(|b|) + NatOf(b)
  {
    hide DigitValue;
    if b == [] {
      assert a + b == a;
    } else {
      var front, last := b[..|b| - 1], b[|b| - 1];
      NatOfConcat(a, front);
      assert (a + b)[..|a + b| - 1] == a + front;
      assert NatOf(a + b) == 10 * NatOf(a + front) + DigitValue(last);
    }
  }

  lemma {:induction false} GroupIsGrouped(digits: string, c: char, kind: Separator)
    requires digits != [] && AllDigits(digits) && IsSeparator(kind, c)
    ensures Grouped(Group(digits, c), kind)
  {
    if |digits| > 3 {
      var g, last := Group(digits[..|digits| - 3], c), digits[|digits| - 3..];
      GroupIsGrouped(digits[..|digits| - 3], c, kind);
      assert Group(digits, c)[..|g|] == g;
      assert Group(digits, c)[|g| + 1..] == last;
    }
  }

  lemma {:induction false} GroupKeepsDigits(digits: string, c: char)
    requires AllDigits(digits) && !IsDigit(c)
    ensures DigitsIn(Group(digits, c)) == digits
  {
    hide IsDigit;
    if |digits| <= 3 {
      DigitsInDigits(digits);
    } else {
      var front, last := digits[..|digits| - 3], digits[|digits| - 3..];
      GroupKeepsDigits(front, c);
      DigitsInConcat(Group(front, c) + [c], last);
      DigitsInConcat(Group(front, c), [c]);
      DigitsInDigits(last);
      assert digits == front + last;
    }
  }

  lemma {:induction false} GroupEnds(digits: string, c: char)
    requires digits != [] && AllDigits(digits) && c != '.'
    ensures var g := Group(digits, c);
            g != [] && IsDigit(g[0]) && IsDigit(g[|g| - 1]) && forall i :: 0 <= i < |g| ==> g[i] != '.'
  {
    if |digits| > 3 {
      GroupEnds(digits[..|digits| - 3], c);
    }
  }

  lemma {:induction false} PartitionRendered(s: string, fraction: Option<string>)
    requires forall i :: 0 <= i < |s| ==> s[i] != '.'
    requires fraction.Some? ==> AllDigits(fraction.value)
    ensures var text := s + (if fraction.Some? then "." + fraction.value else "");
            Partition(text) == (s, fraction) && Points(text) <= 1
  {
    var end := if fraction.Some? then "." + fraction.value else "";
    if s == [] {
      assert s + end == end;
      if fraction.Some? {
        NoPoints(fraction.value);
        assert end[1..] == fraction.value;
      }
    } else {
      PartitionRendered(s[1..], fraction);
      assert (s + end)[1..] == s[1..] + end;
      assert s == [s[0]] + s[1..];
    }
  }

  lemma {:induction false} NoPoints(s: string)
    requires AllDigits(s)
    ensures Points(s) == 0
  {
    if s != [] {
      NoPoints(s[1..]);
    }
  }

  lemma SignOfRendered(sign: string, body: string)
    requires sign == "" || sign == "+" || sign == "-"
    requires body != [] && IsDigit(body[0])
    ensures Sign(sign + body) == (sign == "-", body)
  {
    if sign == "" {
      assert sign + body == body;
    } else {
      assert (sign + body)[0] == sign[0] && (sign + body)[1..] == body;
    }
  }

  lemma RenderedNeedsNoStripping(sign: string, g: string, fraction: Option<string>)
    requires sign == "" || sign == "+" || sign == "-"
    requires g != [] && IsDigit(g[0]) && IsDigit(g[|g| - 1])
    requires fraction.Some? ==> fraction.value != [] && AllDigits(fraction.value)
    ensures var text := sign + (g + (if fraction.Some? then "." + fraction.value else ""));
            Strip(text) == text
  {
    var end := if fraction.Some? then "." + fraction.value else "";
    var text := sign + (g + end);
    if sign == "" {
      assert text[0] == g[0];
    } else {
      assert text[0] == sign[0];
    }
    if fraction.Some? {
      assert text[|text| - 1] == fraction.value[|fraction.value| - 1];
    } else {
      assert text[|text| - 1] == g[|g| - 1];
    }
  }

  /** Parsing, once the text has been taken apart. */
  lemma ParseFromParts(text: string, negative: bool, body: string, integer: string, fraction: Option<string>)
    requires text != [] && Strip(text) == text && Sign(text) == (negative, body)
    requires Partition(body) == (integer, fraction) && Points(body) <= 1
    requires fraction.Some? ==> fraction.value != [] && AllDigits(fraction.value)
    requires IntegerGroups(integer).Some?
    ensures Parse(text) == Ok(Decimal(negative, NatOf(DigitsIn(integer) + fraction.GetOr([])), |fraction.GetOr([])|))
  {
    IntegerAccepted(integer);
  }

  lemma RenderedParts(sign: string, n: nat, c: char, fraction: Option<string>)
    requires sign == "" || sign == "+" || sign == "-"
    requires c == ',' || IsGap(c)
    requires fraction.Some? ==> fraction.value != [] && AllDigits(fraction.value)
    ensures var g := Group(Digits(n), c);
            var body := g + (if fraction.Some? then "." + fraction.value else "");
            var text := Render(sign, n, c, fraction);
            && text != [] && Strip(text) == text && Sign(text) == (sign == "-", body)
            && Partition(body) == (g, fraction) && Points(body) <= 1
  {
    var g := Group(Digits(n), c);
    var body := g + (if fraction.Some? then "." + fraction.value else "");
    GroupEnds(Digits(n), c);
    assert Render(sign, n, c, fraction) == sign + body && body[0] == g[0];
    RenderedNeedsNoStripping(sign, g, fraction);
    SignOfRendered(sign, body);
    PartitionRendered(g, fraction);
  }

  lemma RenderedDigits(sign: string, n: nat, c: char, fraction: Option<string>)
    requires sign == "" || sign == "+" || sign == "-"
    requires c == ',' || IsGap(c)
    requires fraction.Some? ==> fraction.value != [] && AllDigits(fraction.value)
    ensures var f := fraction.GetOr([]);
            Parse(Render(sign, n, c, fraction)) == Ok(Decimal(sign == "-", NatOf(Digits(n) + f), |f|))
  {
    var g := Group(Digits(n), c);
    RenderedParts(sign, n, c, fraction);
    GroupIsGrouped(Digits(n), c, if c == ',' then Comma else Space);
    GroupKeepsDigits(Digits(n), c);
    IntegerAccepted(g);
    ParseFromParts(Render(sign, n, c, fraction), sign == "-",
                   g + (if fraction.Some? then "." + fraction.value else ""), g, fraction);
  }

  /**
   * Round trip: every integer, signed or not, with or without a fraction, written with its digits
   * grouped in threes by a comma or by one of the spaces, parses back to the same number.
   */
  lemma RenderedNumbersParseBack(sign: string, n: nat, c: char, fraction: Option<string>)
    requires sign == "" || sign == "+" || sign == "-"
    requires c == ',' || IsGap(c)
    requires fraction.Some? ==> fraction.value != [] && AllDigits(fraction.value)
    ensures var f := fraction.GetOr([]);
            Parse(Render(sign, n, c, fraction)) == Ok(Decimal(sign == "-", n * Power10(|f|) + NatOf(f), |f|))
  {
    var f := fraction.GetOr([]);
    assert Parse(Render(sign, n, c, fraction)) == Ok(Decimal(sign == "-", NatOf(Digits(n) + f), |f|)) by {
      RenderedDigits(sign, n, c, fraction);
    }
    NatOfConcat(Digits(n), f);
    NatOfDigits(n);
  }
}
