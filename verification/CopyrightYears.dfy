/** Printing a set of years as ranges, and reading such a list back. */
module CopyrightYears {
  import opened Options

  // ---------- Numbers as text ----------

  predicate IsDigit(c: char) {
    '0' <= c <= '9'
  }

  predicate AllDigits(s: string) {
    forall i :: 0 <= i < |s| ==> IsDigit(s[i])
  }

  predicate IsSpace(c: char) {
    c == ' ' || '\t' <= c <= '\r' || '\U{1c}' <= c <= '\U{1f}'
  }

  function DigitChar(d: nat): (c: char)
    requires d < 10
    ensures IsDigit(c) && c as int - '0' as int == d
  {
    ('0' as int + d) as char
  }

  /** The decimal notation of n. */
  function Digits(n: nat): (s: string)
    ensures |s| > 0 && AllDigits(s)
  {
    if n < 10 then [DigitChar(n)] else Digits(n / 10) + [DigitChar(n % 10)]
  }

  /** The number that a string of digits denotes. */
  function Number(s: string): nat
    requires AllDigits(s)
  {
    if |s| == 0 then 0 else Number(s[..|s| - 1]) * 10 + (s[|s| - 1] as int - '0' as int)
  }

  lemma {:induction false} NumberOfDigits(n: nat)
    ensures Number(Digits(n)) == n
  {
    if n >= 10 {
      NumberOfDigits(n / 10);
      assert Digits(n)[..|Digits(n)| - 1] == Digits(n / 10);
    } else {
      assert Digits(n)[..0] == [];
    }
  }

  lemma DigitsLength(n: nat)
    ensures |Digits(n)| < 4 <==> n < 1000
    ensures |Digits(n)| == 4 <==> 1000 <= n <= 9999
  {
    var a, b, c := n / 10, n / 100, n / 1000;
    assert a / 10 == b && b / 10 == c;
    assert n >= 10 ==> |Digits(n)| == |Digits(a)| + 1;
    assert a >= 10 ==> |Digits(a)| == |Digits(b)| + 1;
    assert b >= 10 ==> |Digits(b)| == |Digits(c)| + 1;
  }

  lemma FourDigitNumber(s: string)
    requires |s| == 4 && AllDigits(s)
    ensures Number(s) <= 9999
  {
    var a, b, c := s[..1], s[..2], s[..3];
    assert s[..3][..2] == b && s[..2][..1] == a && s[..1][..0] == [];
    assert Number(a) == Number(s[..0]) * 10 + (s[0] as int - '0' as int);
    assert Number(b) == Number(a) * 10 + (s[1] as int - '0' as int);
    assert Number(c) == Number(b) * 10 + (s[2] as int - '0' as int);
  }

  // ---------- Reading ----------

  /** Digits with single underscores between them, as an integer literal allows. */
  predicate IsNatural(s: string) {
    && |s| > 0 && IsDigit(s[0]) && IsDigit(s[|s| - 1])
    && (forall i :: 0 <= i < |s| ==> IsDigit(s[i]) || s[i] == '_')
    && (forall i :: 0 < i < |s| ==> IsDigit(s[i]) || IsDigit(s[i - 1]))
  }

  function WithoutUnderscores(s: string): (r: string)
    requires forall i :: 0 <= i < |s| ==> IsDigit(s[i]) || s[i] == '_'
    ensures AllDigits(r)
  {
    if |s| == 0 then []
    else WithoutUnderscores(s[..|s| - 1]) + if s[|s| - 1] == '_' then [] else [s[|s| - 1]]
  }

  /** A signed integer, if the text is one. */
  function ParseInt(s: string): Option<int> {
    if |s| > 0 && (s[0] == '-' || s[0] == '+') && IsNatural(s[1..]) then
      var n: int := Number(WithoutUnderscores(s[1..]));
      Some(if s[0] == '-' then -n else n)
    else if IsNatural(s) then Some(Number(WithoutUnderscores(s)))
    else None
  }

  function SkipSpaces(s: string, i: nat): (j: nat)
    requires i <= |s|
    ensures i <= j <= |s|
    decreases |s| - i
  {
    if i < |s| && IsSpace(s[i]) then SkipSpaces(s, i + 1) else i
  }

  predicate FourDigitsAt(s: string, i: nat) {
    i + 4 <= |s| && AllDigits(s[i..i + 4])
  }

  /** Four digits, a hyphen, four digits, at the start of the text; spaces may surround the hyphen. */
  function MatchRange(s: string): Option<(nat, nat)> {
    if !FourDigitsAt(s, 0) then None
    else
      var i := SkipSpaces(s, 4);
      if i >= |s| || s[i] != '-' then None
      else
        var j := SkipSpaces(s, i + 1);
        if !FourDigitsAt(s, j) then None
        else Some((Number(s[0..4]), Number(s[j..j + 4])))
  }

  /** All years from first to last. */
  function Interval(first: int, last: int): (years: set<int>)
    ensures forall y :: y in years <==> first <= y <= last
    decreases last - first
  {
    if first > last then {} else Interval(first, last - 1) + {last}
  }

  /** The years one comma-separated item stands for. */
  function ParseItem(s: string): set<int> {
    match MatchRange(s)
    case Some((f, l)) => Interval(f, l)
    case None =>
      match ParseInt(s)
      case Some(n) => {n}
      case None => {}
  }

  function Strip(s: string): string {
    if |s| > 0 && IsSpace(s[0]) then Strip(s[1..])
    else if |s| > 0 && IsSpace(s[|s| - 1]) then Strip(s[..|s| - 1])
    else s
  }

  /** The text cut at every comma. */
  function Split(s: string): (items: seq<string>)
    ensures |items| > 0
  {
    if |s| == 0 then [""]
    else
      var rest := Split(s[1..]);
      if s[0] == ',' then [""] + rest else [[s[0]] + rest[0]] + rest[1..]
  }

  /** The years of all items together. */
  function Union(items: seq<string>): set<int> {
    if |items| == 0 then {} else ParseItem(Strip(items[0])) + Union(items[1..])
  }

  method AddRange(years: set<int>, f: nat, l: nat) returns (output: set<int>)
    ensures output == years + Interval(f, l)
  {
    output := years;
    var i: int := f;
    while i <= l
      invariant if f <= l then f <= i <= l + 1 else i == f
      invariant output == years + Interval(f, i - 1)
    {
      output := output + {i};
      i := i + 1;
    }
    assert i - 1 == l || Interval(f, i - 1) == Interval(f, l);
  }

  method ProcessDates(dates: string) returns (output: set<int>)
    ensures output == Union(Split(dates))
    ensures forall items :: AllWritten(items) && dates == Written(items) ==> output == Meant(items)
  {
    hide Split, Strip, MatchRange, ParseInt, Written, Meant, AllWritten;
    forall items | AllWritten(items) && dates == Written(items)
      ensures Union(Split(dates)) == Meant(items)
    {
      ReadsWhatIsWritten(items);
    }
    var items := Split(dates);
    output := {};
    for n := 0 to |items|
      invariant Union(items) == output + Union(items[n..])
    {
      var date := Strip(items[n]);
      assert items[n..][1..] == items[n + 1..];
      match MatchRange(date) {
        case Some((f, l)) =>
          output := AddRange(output, f, l);
        case None =>
          match ParseInt(date) {
            case Some(year) => output := output + {year};
            case None =>
          }
      }
    }
  }

  // ---------- What people write ----------

  /** White space. */
  predicate White(s: string) {
    forall i :: 0 <= i < |s| ==>
      s[i] in {' ', '\t', '\n', '\r', '\U{b}', '\U{c}', '\U{1c}', '\U{1d}', '\U{1e}', '\U{1f}'}
  }

  /** An item of a list of years as a copyright line may have it, with the white space in it. */
  datatype Item =
    | Year(before: string, year: nat, after: string)
    | Signed(before: string, minus: bool, year: nat, after: string)
    | Span(before: string, first: nat, left: string, right: string, last: nat, after: string)
    | Word(before: string, word: string, after: string)

  /** Text of a word: it starts with a letter and neither ends in a space nor holds a comma. */
  predicate IsWord(s: string) {
    |s| > 0 && ('a' <= s[0] <= 'z' || 'A' <= s[0] <= 'Z') && !IsSpace(s[|s| - 1]) && NoComma(s)
  }

  function Core(item: Item): string {
    match item
    case Year(_, y, _) => Digits(y)
    case Signed(_, minus, y, _) => (if minus then "-" else "+") + Digits(y)
    case Span(_, first, left, right, last, _) => Digits(first) + left + "-" + right + Digits(last)
    case Word(_, word, _) => word
  }

  predicate IsWritten(item: Item) {
    && White(item.before) && White(item.after)
    && (item.Span? ==> White(item.left) && White(item.right))
    && (item.Span? ==> 1000 <= item.first <= 9999 && 1000 <= item.last <= 9999)
    && (item.Word? ==> IsWord(item.word))
  }

  /** The years the item stands for. */
  function YearsMeant(item: Item): set<int> {
    match item
    case Year(_, y, _) => {y}
    case Signed(_, minus, y, _) => {if minus then -(y as int) else y as int}
    case Span(_, first, _, _, last, _) => Interval(first, last)
    case Word(_, _, _) => {}
  }

  function Written(items: seq<Item>): string {
    if |items| == 0 then ""
    else
      var text := items[0].before + Core(items[0]) + items[0].after;
      if |items| == 1 then text else text + "," + Written(items[1..])
  }

  function Meant(items: seq<Item>): set<int> {
    if |items| == 0 then {} else YearsMeant(items[0]) + Meant(items[1..])
  }

  predicate AllWritten(items: seq<Item>) {
    |items| > 0 && forall i :: 0 <= i < |items| ==> IsWritten(items[i])
  }

  lemma WhiteIsSpace(s: string, i: nat)
    requires White(s) && i < |s|
    ensures IsSpace(s[i]) && s[i] != ','
  {
    var c := s[i];
    assert c in {' ', '\t', '\n', '\r', '\U{b}', '\U{c}', '\U{1c}', '\U{1d}', '\U{1e}', '\U{1f}'};
  }

  lemma {:induction false} StripPadded(u: string, s: string, v: string)
    requires White(u) && White(v) && |s| > 0 && !IsSpace(s[0]) && !IsSpace(s[|s| - 1])
    ensures Strip(u + s + v) == s
    decreases |u| + |v|
  {
    hide White;
    var text := u + s + v;
    if |u| > 0 {
      WhiteIsSpace(u, 0);
      WhiteParts(u, v);
      assert text[0] == u[0] && text[1..] == u[1..] + s + v;
      StripPadded(u[1..], s, v);
    } else if |v| > 0 {
      WhiteIsSpace(v, |v| - 1);
      WhiteParts(u, v);
      assert text[0] == s[0] && text[|text| - 1] == v[|v| - 1];
      assert text[..|text| - 1] == u + s + v[..|v| - 1];
      StripPadded(u, s, v[..|v| - 1]);
    } else {
      assert text == s;
    }
  }

  lemma WhiteParts(u: string, v: string)
    requires White(u) && White(v)
    ensures |u| > 0 ==> White(u[1..])
    ensures |v| > 0 ==> White(v[..|v| - 1])
  {
  }

  lemma {:induction false} SkipsWhite(s: string, i: nat, v: string)
    requires White(v) && i + |v| < |s| && s[i..i + |v|] == v && !IsSpace(s[i + |v|])
    ensures SkipSpaces(s, i) == i + |v|
    decreases |v|
  {
    if |v| > 0 {
      WhiteIsSpace(v, 0);
      assert s[i] == s[i..i + |v|][0] == v[0];
      assert s[i + 1..i + 1 + |v[1..]|] == s[i..i + |v|][1..] == v[1..];
      SkipsWhite(s, i + 1, v[1..]);
    }
  }

  lemma SpacedSlices(f: string, v: string, w: string, l: string)
    requires |f| == 4 && |l| == 4
    ensures var s, i, j := f + v + "-" + w + l, 4 + |v|, 5 + |v| + |w|;
      && |s| == j + 4 && s[0..4] == f && s[4..4 + |v|] == v && s[i] == '-'
      && s[i + 1..i + 1 + |w|] == w && s[j..j + 4] == l && s[j] == l[0]
  {
  }

  /** White space may surround the hyphen of a range. */
  lemma {:induction false} SpacedRange(f: string, v: string, w: string, l: string)
    requires |f| == 4 && AllDigits(f) && |l| == 4 && AllDigits(l) && White(v) && White(w)
    ensures MatchRange(f + v + "-" + w + l) == Some((Number(f), Number(l)))
  {
    hide Number, White, SkipSpaces, MatchRange;
    var s, i, j := f + v + "-" + w + l, 4 + |v|, 5 + |v| + |w|;
    SpacedSlices(f, v, w, l);
    HyphenIsNoSpace(l[0]);
    SkipsWhite(s, 4, v);
    SkipsWhite(s, i + 1, w);
    MatchesAt(s, i, j);
  }

  lemma HyphenIsNoSpace(c: char)
    ensures !IsSpace('-') && (IsDigit(c) ==> !IsSpace(c))
  {
  }

  lemma {:induction false} MatchesAt(s: string, i: nat, j: nat)
    requires FourDigitsAt(s, 0) && 4 <= i < |s| && SkipSpaces(s, 4) == i && s[i] == '-'
    requires SkipSpaces(s, i + 1) == j && FourDigitsAt(s, j)
    ensures MatchRange(s) == Some((Number(s[0..4]), Number(s[j..j + 4])))
  {
    hide Number, SkipSpaces;
  }

  lemma SpanMeans(item: Item)
    requires item.Span? && IsWritten(item)
    ensures ParseItem(Core(item)) == YearsMeant(item)
    ensures Bare(Core(item))
  {
    hide Digits, Number, MatchRange, ParseInt, White;
    var f, l := Digits(item.first), Digits(item.last);
    DigitsLength(item.first);
    DigitsLength(item.last);
    NumberOfDigits(item.first);
    NumberOfDigits(item.last);
    SpacedRange(f, item.left, item.right, l);
    DigitsAreBare(item.first);
    DigitsAreBare(item.last);
    WhiteHasNoComma(item.left);
    WhiteHasNoComma(item.right);
    BareEnds(f, item.left + "-" + item.right, l);
    assert f + (item.left + "-" + item.right) + l == Core(item);
  }

  /** No comma, and no space at either end. */
  predicate Bare(s: string) {
    |s| > 0 && !IsSpace(s[0]) && !IsSpace(s[|s| - 1]) && NoComma(s)
  }

  lemma DigitsAreBare(n: nat)
    ensures Bare(Digits(n))
  {
    hide Digits;
    var s := Digits(n);
    assert forall i :: 0 <= i < |s| ==> IsDigit(s[i]);
  }

  lemma WhiteHasNoComma(s: string)
    requires White(s)
    ensures NoComma(s)
  {
    forall i | 0 <= i < |s|
      ensures s[i] != ','
    {
      WhiteIsSpace(s, i);
    }
  }

  lemma BareEnds(f: string, m: string, l: string)
    requires Bare(f) && NoComma(m) && Bare(l)
    ensures Bare(f + m + l)
  {
  }

  lemma {:induction false} SignedNumber(c: char, d: string)
    requires c in {'-', '+'} && |d| > 0 && AllDigits(d)
    ensures ParseItem([c] + d) == {if c == '-' then -(Number(d) as int) else Number(d) as int}
  {
    hide Number, MatchRange, ParseInt;
    NoRangeAtSign(c, d);
    SignedInt(c, d);
  }

  lemma {:induction false} NoRangeAtSign(c: char, d: string)
    requires !IsDigit(c)
    ensures MatchRange([c] + d) == None
  {
    hide Number, SkipSpaces;
    var s := [c] + d;
    assert |s| >= 4 ==> s[0..4][0] == c;
    assert !FourDigitsAt(s, 0);
  }

  lemma {:induction false} SignedInt(c: char, d: string)
    requires c in {'-', '+'} && |d| > 0 && AllDigits(d)
    ensures ParseInt([c] + d) == Some(if c == '-' then -(Number(d) as int) else Number(d) as int)
  {
    hide Number, WithoutUnderscores;
    var s := [c] + d;
    assert s[0] == c && s[1..] == d;
    DigitsAreNatural(d);
    UnderscoresOfDigits(d);
  }

  lemma DigitsAreNatural(d: string)
    requires |d| > 0 && AllDigits(d)
    ensures IsNatural(d)
  {
  }

  /** A signed number is a year, too. */
  lemma SignedMeans(item: Item)
    requires item.Signed?
    ensures ParseItem(Core(item)) == YearsMeant(item)
    ensures Bare(Core(item))
  {
    hide Digits, ParseItem, Number;
    var c, d := if item.minus then '-' else '+', Digits(item.year);
    assert Core(item) == [c] + d;
    SignedNumber(c, d);
    NumberOfDigits(item.year);
    DigitsAreBare(item.year);
  }

  lemma {:induction false} WithoutOneUnderscore(f: string, l: string)
    requires AllDigits(f) && AllDigits(l)
    ensures forall i :: 0 <= i < |f + "_" + l| ==> IsDigit((f + "_" + l)[i]) || (f + "_" + l)[i] == '_'
    ensures WithoutUnderscores(f + "_" + l) == f + l
    decreases |l|
  {
    var s := f + "_" + l;
    if |l| == 0 {
      assert s[..|s| - 1] == f && f + l == f;
      UnderscoresOfDigits(f);
    } else {
      var init := l[..|l| - 1];
      WithoutOneUnderscore(f, init);
      assert s[..|s| - 1] == f + "_" + init && s[|s| - 1] == l[|l| - 1];
      assert (f + init) + [l[|l| - 1]] == f + l;
    }
  }

  /** An underscore between digits is passed over. */
  lemma {:induction false} GroupedYear(f: string, l: string)
    requires |f| > 0 && AllDigits(f) && |l| > 0 && AllDigits(l)
    ensures ParseItem(f + "_" + l) == {Number(f + l) as int}
  {
    hide Number, WithoutUnderscores, SkipSpaces;
    WithoutOneUnderscore(f, l);
    UnderscoreIsNatural(f, l);
    NoHyphenNoRange(f, l);
  }

  lemma UnderscoreIsNatural(f: string, l: string)
    requires |f| > 0 && AllDigits(f) && |l| > 0 && AllDigits(l)
    ensures IsNatural(f + "_" + l) && (f + "_" + l)[0] != '-' && (f + "_" + l)[0] != '+'
  {
    var s := f + "_" + l;
    assert s[0] == f[0] && s[|s| - 1] == l[|l| - 1];
    assert forall i :: 0 <= i < |s| ==> s[i] == if i < |f| then f[i] else if i == |f| then '_' else l[i - |f| - 1];
  }

  lemma NoHyphenNoRange(f: string, l: string)
    requires AllDigits(f) && AllDigits(l)
    ensures MatchRange(f + "_" + l) == None
  {
    hide Number;
    var s := f + "_" + l;
    assert forall i :: 0 <= i < |s| ==> s[i] == if i < |f| then f[i] else if i == |f| then '_' else l[i - |f| - 1];
    assert |s| > 4 ==> !IsSpace(s[4]) && s[4] != '-';
  }

  lemma WordMeans(item: Item)
    requires item.Word? && IsWord(item.word)
    ensures ParseItem(Core(item)) == YearsMeant(item)
    ensures Bare(Core(item))
  {
    var s := item.word;
    NoRangeAtSign(s[0], s[1..]);
    assert [s[0]] + s[1..] == s;
  }

  lemma ItemMeans(item: Item)
    requires IsWritten(item)
    ensures ParseItem(Core(item)) == YearsMeant(item) && Bare(Core(item))
  {
    hide Digits, ParseItem, Core, YearsMeant, White, IsWord;
    match item
    case Year(_, y, _) => YearMeans(item);
    case Signed(_, _, _, _) => SignedMeans(item);
    case Span(_, _, _, _, _, _) => SpanMeans(item);
    case Word(_, _, _) => WordMeans(item);
  }

  lemma YearMeans(item: Item)
    requires item.Year?
    ensures ParseItem(Core(item)) == YearsMeant(item) && Bare(Core(item))
  {
    hide Digits, ParseItem;
    SingleYear(item.year);
    DigitsAreBare(item.year);
  }

  /** Surrounding white space does not change what an item stands for. */
  lemma PaddedItem(item: Item)
    requires IsWritten(item)
    ensures var text := item.before + Core(item) + item.after;
      ParseItem(Strip(text)) == YearsMeant(item) && NoComma(text)
  {
    hide ParseItem, Core, YearsMeant, White, Strip;
    ItemMeans(item);
    StripPadded(item.before, Core(item), item.after);
    WhiteHasNoComma(item.before);
    WhiteHasNoComma(item.after);
  }

  /** Reading a written list gives the years its items stand for. */
  lemma {:induction false} ReadsWhatIsWritten(items: seq<Item>)
    requires AllWritten(items)
    ensures Union(Split(Written(items))) == Meant(items)
  {
    hide ParseItem, Core, YearsMeant, Strip, IsWritten;
    var text := items[0].before + Core(items[0]) + items[0].after;
    PaddedItem(items[0]);
    if |items| == 1 {
      SplitSolid(text);
      assert Union([text]) == ParseItem(Strip(text)) + Union([text][1..]);
      assert Meant(items[1..]) == {};
    } else {
      ReadsWhatIsWritten(items[1..]);
      SplitAtComma(text, Written(items[1..]));
      assert ([text] + Split(Written(items[1..])))[1..] == Split(Written(items[1..]));
    }
  }

  // ---------- Printing ----------

  datatype Range = Range(first: nat, last: nat)

  function Format(r: Range): string {
    if r.first == r.last then Digits(r.first) else Digits(r.first) + "-" + Digits(r.last)
  }

  function Join(ranges: seq<Range>): string {
    if |ranges| == 0 then ""
    else if |ranges| == 1 then Format(ranges[0])
    else Format(ranges[0]) + "," + Join(ranges[1..])
  }

  /** Ranges in ascending order with a gap between neighbours, so none could be extended or merged. */
  predicate Maximal(ranges: seq<Range>) {
    && (forall i :: 0 <= i < |ranges| ==> ranges[i].first <= ranges[i].last)
    && (forall i, j :: 0 <= i < j < |ranges| ==> ranges[i].last + 1 < ranges[j].first)
  }

  function YearsOf(ranges: seq<Range>): set<int> {
    if |ranges| == 0 then {} else Interval(ranges[0].first, ranges[0].last) + YearsOf(ranges[1..])
  }

  /** The list form of a set: its elements in ascending order. */
  ghost predicate IsSortedList(list: seq<nat>, years: set<nat>) {
    && (forall i, j :: 0 <= i < j < |list| ==> list[i] < list[j])
    && (forall y :: y in years <==> y in list)
  }

  /** The first n elements of a list of years. */
  function Listed(list: seq<nat>, n: nat): set<int>
    requires n <= |list|
  {
    if n == 0 then {} else Listed(list, n - 1) + {list[n - 1]}
  }

  lemma {:induction false} ListedElements(list: seq<nat>, n: nat, y: int)
    requires n <= |list|
    ensures y in Listed(list, n) <==> exists i :: 0 <= i < n && list[i] == y
  {
    if n > 0 {
      ListedElements(list, n - 1, y);
    }
  }

  lemma ListedIsSet(list: seq<nat>, years: set<nat>)
    requires IsSortedList(list, years)
    ensures Listed(list, |list|) == years
  {
    forall y: int
      ensures y in Listed(list, |list|) <==> y in years
    {
      ListedElements(list, |list|, y);
    }
  }

  method SortedList(years: set<nat>) returns (list: seq<nat>)
    ensures IsSortedList(list, years)
  {
    list := [];
    var left := years;
    while left != {}
      invariant left <= years && forall y :: y in years <==> y in left || y in list
      invariant forall i, j :: 0 <= i < j < |list| ==> list[i] < list[j]
      invariant forall i, y :: 0 <= i < |list| && y in left ==> list[i] < y
      decreases left
    {
      var least := Least(left);
      list := list + [least];
      left := left - {least};
    }
  }

  method Least(s: set<nat>) returns (least: nat)
    requires s != {}
    ensures least in s && forall y :: y in s ==> least <= y
  {
    least :| least in s;
    var left := s - {least};
    while left != {}
      invariant left <= s && least in s
      invariant forall y :: y in s ==> y in left || least <= y
      decreases left
    {
      var y :| y in left;
      if y < least {
        least := y;
      }
      left := left - {y};
    }
  }

  lemma {:induction false} YearsOfAppend(ranges: seq<Range>, r: Range)
    ensures YearsOf(ranges + [r]) == YearsOf(ranges) + Interval(r.first, r.last)
  {
    if |ranges| == 0 {
      assert (ranges + [r])[1..] == [];
    } else {
      YearsOfAppend(ranges[1..], r);
      assert (ranges + [r])[1..] == ranges[1..] + [r];
    }
  }

  lemma NoYears()
    ensures YearsOf([]) == {}
  {
  }

  lemma MaximalStretch(done: seq<Range>, first: nat, second: nat)
    requires Maximal(done + [Range(first, second)])
    ensures Maximal(done + [Range(first, second + 1)])
  {
    var a, b := done + [Range(first, second)], done + [Range(first, second + 1)];
    assert forall i :: 0 <= i < |done| ==> a[i] == b[i];
    assert forall i :: 0 <= i < |a| ==> a[i].first == b[i].first;
  }

  lemma MaximalPush(done: seq<Range>, r: Range, next: nat)
    requires Maximal(done + [r]) && next > r.last + 1
    ensures Maximal(done + [r] + [Range(next, next)])
  {
    var a, b := done + [r], done + [r] + [Range(next, next)];
    assert forall i :: 0 <= i < |a| ==> a[i] == b[i];
    assert forall i :: 0 <= i < |a| ==> a[i].last <= r.last by {
      assert a[|done|] == r;
    }
  }

  /** The printed text consists of digits, hyphens and commas. */
  lemma {:induction false} JoinIsTight(ranges: seq<Range>)
    ensures forall i :: 0 <= i < |Join(ranges)| ==>
      IsDigit(Join(ranges)[i]) || Join(ranges)[i] == '-' || Join(ranges)[i] == ','
  {
    hide Digits;
    if |ranges| > 0 {
      var f, l := Digits(ranges[0].first), Digits(ranges[0].last);
      assert forall i :: 0 <= i < |f| ==> IsDigit(f[i]);
      assert forall i :: 0 <= i < |l| ==> IsDigit(l[i]);
      JoinIsTight(ranges[1..]);
    }
  }

  /** Decimal notation as usual, most significant digit first. */
  lemma DigitsOf2003()
    ensures Digits(2003) == "2003"
  {
    assert Digits(2) == "2";
    assert Digits(20) == Digits(2) + "0";
    assert Digits(200) == Digits(20) + "0";
    assert Digits(2003) == Digits(200) + "3";
  }

  lemma OneYear(y: nat)
    ensures Interval(y, y) == {y as int}
  {
  }

  lemma YearsStretch(done: seq<Range>, first: nat, second: nat, dates: seq<nat>, n: nat)
    requires first <= second && n < |dates| && dates[n] == second + 1
    requires YearsOf(done) + Interval(first, second) == Listed(dates, n)
    ensures YearsOf(done) + Interval(first, second + 1) == Listed(dates, n + 1)
  {
    hide YearsOf;
    assert Interval(first, second + 1) == Interval(first, second) + {second + 1};
  }

  lemma YearsPush(dates: seq<nat>, n: nat)
    requires n < |dates|
    ensures Listed(dates, n + 1) == Listed(dates, n) + Interval(dates[n], dates[n])
  {
    OneYear(dates[n]);
  }

  /** The printed form of a set of years, and the ranges it consists of. */
  method DateStr(years: set<nat>) returns (text: string, ranges: seq<Range>)
    requires years != {}
    ensures |ranges| > 0 && Maximal(ranges) && YearsOf(ranges) == years && text == Join(ranges)
    ensures forall i :: 0 <= i < |text| ==> IsDigit(text[i]) || text[i] == '-' || text[i] == ','
  {
    var dates := SortedList(years);
    var done: seq<Range> := [];
    assert |dates| > 0;
    var first := dates[0];
    var second := first;
    var n := 1;
    assert Maximal(done + [Range(first, second)]);
    assert Listed(dates, 1) == Listed(dates, 0) + {first};
    hide Maximal, YearsOf, Join, Interval, Listed;
    NoYears();
    OneYear(first);
    while n < |dates|
      invariant 1 <= n <= |dates| && first <= second == dates[n - 1]
      invariant Maximal(done + [Range(first, second)])
      invariant YearsOf(done) + Interval(first, second) == Listed(dates, n)
    {
      var next := dates[n];
      if next == second + 1 {
        MaximalStretch(done, first, second);
        YearsStretch(done, first, second, dates, n);
        second := next;
      } else {
        MaximalPush(done, Range(first, second), next);
        YearsOfAppend(done, Range(first, second));
        done := done + [Range(first, second)];
        first, second := next, next;
        YearsPush(dates, n);
      }
      n := n + 1;
    }
    ListedIsSet(dates, years);
    YearsOfAppend(done, Range(first, second));
    ranges := done + [Range(first, second)];
    text := Join(ranges);
    JoinIsTight(ranges);
  }

  // ---------- Reading back what was printed ----------

  /** No comma and no space in a piece of text. */
  predicate Solid(s: string) {
    forall i :: 0 <= i < |s| ==> s[i] != ',' && !IsSpace(s[i])
  }

  lemma FormatIsSolid(r: Range)
    ensures |Format(r)| > 0 && Solid(Format(r))
  {
    hide Digits;
    var f, l := Digits(r.first), Digits(r.last);
    assert forall i :: 0 <= i < |f| ==> IsDigit(f[i]);
    assert forall i :: 0 <= i < |l| ==> IsDigit(l[i]);
  }

  lemma StripSolid(s: string)
    requires |s| > 0 && Solid(s)
    ensures Strip(s) == s
  {
    assert !IsSpace(s[0]) && !IsSpace(s[|s| - 1]);
  }

  predicate NoComma(s: string) {
    forall i :: 0 <= i < |s| ==> s[i] != ','
  }

  lemma {:induction false} SplitSolid(s: string)
    requires NoComma(s)
    ensures Split(s) == [s]
  {
    if |s| > 0 {
      SplitSolid(s[1..]);
      assert [s[0]] + s[1..] == s;
    }
  }

  lemma {:induction false} SplitAtComma(s: string, t: string)
    requires NoComma(s)
    ensures Split(s + "," + t) == [s] + Split(t)
  {
    if |s| == 0 {
      assert (s + "," + t)[1..] == t;
    } else {
      SplitAtComma(s[1..], t);
      assert (s + "," + t)[1..] == s[1..] + "," + t;
      assert (s + "," + t)[0] == s[0];
      assert [s[0]] + s[1..] == s;
      assert ([s[1..]] + Split(t))[1..] == Split(t);
    }
  }

  /** What reading makes of the printed ranges, one by one. */
  function ReadBack(ranges: seq<Range>): set<int> {
    if |ranges| == 0 then {} else ParseItem(Format(ranges[0])) + ReadBack(ranges[1..])
  }

  lemma {:induction false} ReadingIsPiecewise(ranges: seq<Range>)
    requires |ranges| > 0
    ensures Union(Split(Join(ranges))) == ReadBack(ranges)
  {
    hide ParseItem, Format;
    var f := Format(ranges[0]);
    FormatIsSolid(ranges[0]);
    StripSolid(f);
    if |ranges| == 1 {
      SplitSolid(f);
      assert Union([f]) == ParseItem(Strip(f)) + Union([f][1..]);
      assert ReadBack(ranges[1..]) == {};
    } else {
      ReadingIsPiecewise(ranges[1..]);
      SplitAtComma(f, Join(ranges[1..]));
      assert ([f] + Split(Join(ranges[1..])))[1..] == Split(Join(ranges[1..]));
    }
  }

  lemma {:induction false} UnderscoresOfDigits(s: string)
    requires AllDigits(s)
    ensures WithoutUnderscores(s) == s
  {
    if |s| > 0 {
      UnderscoresOfDigits(s[..|s| - 1]);
      assert s[..|s| - 1] + [s[|s| - 1]] == s;
    }
  }

  /** A single year is read back, whatever its length. */
  lemma {:induction false} SingleYear(n: nat)
    ensures ParseItem(Digits(n)) == {n as int}
  {
    hide Digits;
    var s := Digits(n);
    assert IsDigit(s[0]) && IsDigit(s[|s| - 1]);
    assert MatchRange(s) == None by {
      if FourDigitsAt(s, 0) && |s| > 4 {
        assert IsDigit(s[4]);
      }
    }
    UnderscoresOfDigits(s);
    NumberOfDigits(n);
  }

  /** A hyphenated pair is no integer. */
  lemma PairIsNoInteger(f: string, l: string)
    requires |f| > 0 && AllDigits(f)
    ensures ParseInt(f + "-" + l) == None
  {
    var s := f + "-" + l;
    assert s[0] == f[0] && s[|f|] == '-';
    assert IsDigit(s[0]);
    assert !IsDigit('-');
  }

  /** A hyphenated pair matches as a range exactly when the first has four digits and the second at least four. */
  lemma PairMatch(f: string, l: string)
    requires |f| > 0 && AllDigits(f) && |l| > 0 && AllDigits(l)
    ensures |f| == 4 && |l| >= 4 ==> MatchRange(f + "-" + l) == Some((Number(f), Number(l[..4])))
    ensures !(|f| == 4 && |l| >= 4) ==> MatchRange(f + "-" + l) == None
  {
    hide Number, MatchRange;
    if |f| < 4 {
      ShortFirst(f, l);
    } else if |f| > 4 {
      LongFirst(f, l);
    } else {
      ExactFirst(f, l);
    }
  }

  lemma ShortFirst(f: string, l: string)
    requires |f| < 4
    ensures MatchRange(f + "-" + l) == None
  {
    hide Number;
    var s := f + "-" + l;
    assert s[|f|] == '-';
    assert |s| >= 4 ==> s[0..4][|f|] == '-';
    assert !FourDigitsAt(s, 0);
  }

  lemma LongFirst(f: string, l: string)
    requires |f| > 4 && AllDigits(f)
    ensures MatchRange(f + "-" + l) == None
  {
    hide Number;
    var s := f + "-" + l;
    assert s[4] == f[4] && IsDigit(s[4]);
    assert SkipSpaces(s, 4) == 4;
  }

  lemma ExactFirst(f: string, l: string)
    requires |f| == 4 && AllDigits(f) && |l| > 0 && AllDigits(l)
    ensures |l| >= 4 ==> MatchRange(f + "-" + l) == Some((Number(f), Number(l[..4])))
    ensures |l| < 4 ==> MatchRange(f + "-" + l) == None
  {
    hide Number;
    var s := f + "-" + l;
    assert s[0..4] == f && s[4] == '-' && s[5] == l[0] && IsDigit(s[5]);
    assert SkipSpaces(s, 4) == 4 && SkipSpaces(s, 5) == 5;
    if |l| >= 4 {
      assert s[5..9] == l[..4];
    }
  }

  /** Does the range survive printing and reading? */
  predicate Survives(r: Range) {
    r.first == r.last || (1000 <= r.first && r.last <= 9999)
  }

  /** A range is read back whole exactly when it is one year or has four-digit ends; otherwise its end is lost. */
  lemma RangeRoundTrip(r: Range)
    requires r.first <= r.last
    ensures ParseItem(Format(r)) <= Interval(r.first, r.last)
    ensures Survives(r) ==> ParseItem(Format(r)) == Interval(r.first, r.last)
    ensures !Survives(r) ==> r.last !in ParseItem(Format(r))
  {
    hide Digits, Number, MatchRange, ParseInt;
    var f, l := Digits(r.first), Digits(r.last);
    NumberOfDigits(r.first);
    NumberOfDigits(r.last);
    DigitsLength(r.first);
    DigitsLength(r.last);
    if r.first == r.last {
      SingleYear(r.first);
    } else {
      PairMatch(f, l);
      PairIsNoInteger(f, l);
      if |f| == 4 && |l| >= 4 {
        FourDigitNumber(l[..4]);
        assert |l| == 4 ==> l[..4] == l;
      }
    }
  }

  lemma {:induction false} ReadBackWithin(ranges: seq<Range>)
    requires Maximal(ranges)
    ensures ReadBack(ranges) <= YearsOf(ranges)
    ensures (forall i :: 0 <= i < |ranges| ==> Survives(ranges[i])) ==> ReadBack(ranges) == YearsOf(ranges)
  {
    hide ParseItem, Format, Survives;
    if |ranges| > 0 {
      RangeRoundTrip(ranges[0]);
      ReadBackWithin(ranges[1..]);
    }
  }

  lemma {:induction false} OutsideLater(ranges: seq<Range>, y: int)
    requires forall i :: 0 <= i < |ranges| ==> y < ranges[i].first || ranges[i].last < y
    ensures y !in YearsOf(ranges)
  {
    if |ranges| > 0 {
      OutsideLater(ranges[1..], y);
    }
  }

  /** The last year of a range that does not survive is missing from what is read. */
  lemma {:induction false} LostYear(ranges: seq<Range>, i: nat)
    requires Maximal(ranges) && i < |ranges| && !Survives(ranges[i])
    ensures ranges[i].last !in ReadBack(ranges) && ranges[i].last in YearsOf(ranges)
  {
    hide ParseItem, Format, Survives;
    RangeRoundTrip(ranges[0]);
    if i == 0 {
      ReadBackWithin(ranges[1..]);
      OutsideLater(ranges[1..], ranges[0].last);
    } else {
      LostYear(ranges[1..], i - 1);
      assert ranges[1..][i - 1] == ranges[i];
    }
  }

  /** Reading undoes printing exactly when every range of two or more years has four-digit ends. */
  lemma RangesRoundTrip(ranges: seq<Range>)
    requires |ranges| > 0 && Maximal(ranges)
    ensures Union(Split(Join(ranges))) <= YearsOf(ranges)
    ensures Union(Split(Join(ranges))) == YearsOf(ranges) <==> forall i :: 0 <= i < |ranges| ==> Survives(ranges[i])
  {
    hide ReadBack, YearsOf, Survives, Split, Join, Union;
    ReadingIsPiecewise(ranges);
    ReadBackWithin(ranges);
    if i :| 0 <= i < |ranges| && !Survives(ranges[i]) {
      LostYear(ranges, i);
    }
  }

  lemma {:induction false} YearsMember(ranges: seq<Range>, y: int)
    ensures y in YearsOf(ranges) <==> exists i :: 0 <= i < |ranges| && ranges[i].first <= y <= ranges[i].last
  {
    if |ranges| > 0 {
      var rest := ranges[1..];
      YearsMember(rest, y);
      assert forall i :: 0 <= i < |rest| ==> rest[i] == ranges[i + 1];
      assert forall i :: 1 <= i < |ranges| ==> ranges[i] == rest[i - 1];
    }
  }

  /** Neighbouring years have four digits: the sets of years that printing and reading restores. */
  ghost predicate Restorable(years: set<int>) {
    forall y :: y in years && y + 1 in years ==> 1000 <= y && y + 1 <= 9999
  }

  /** A range that survives keeps its neighbouring years. */
  lemma SurvivingNeighbours(ranges: seq<Range>, y: int)
    requires Maximal(ranges) && (forall i :: 0 <= i < |ranges| ==> Survives(ranges[i]))
    requires y in YearsOf(ranges) && y + 1 in YearsOf(ranges)
    ensures 1000 <= y && y + 1 <= 9999
  {
    hide YearsOf;
    YearsMember(ranges, y);
    YearsMember(ranges, y + 1);
    var i :| 0 <= i < |ranges| && ranges[i].first <= y <= ranges[i].last;
    var j :| 0 <= j < |ranges| && ranges[j].first <= y + 1 <= ranges[j].last;
    assert i == j;
  }

  lemma NeighboursSurvive(ranges: seq<Range>, i: nat)
    requires Maximal(ranges) && i < |ranges| && Restorable(YearsOf(ranges))
    ensures Survives(ranges[i])
  {
    hide YearsOf;
    var r := ranges[i];
    if r.first < r.last {
      YearsMember(ranges, r.first);
      YearsMember(ranges, r.first + 1);
      YearsMember(ranges, r.last - 1);
      YearsMember(ranges, r.last);
    }
  }

  /** Printing a set of years as maximal ranges and reading it back restores it exactly for restorable sets. */
  lemma DatesRoundTrip(years: set<int>, ranges: seq<Range>)
    requires |ranges| > 0 && Maximal(ranges) && YearsOf(ranges) == years
    ensures Union(Split(Join(ranges))) <= years
    ensures Union(Split(Join(ranges))) == years <==> Restorable(years)
  {
    hide YearsOf, Survives, Split, Join, Union, Restorable;
    RangesRoundTrip(ranges);
    if Restorable(years) {
      forall i | 0 <= i < |ranges|
        ensures Survives(ranges[i])
      {
        NeighboursSurvive(ranges, i);
      }
    }
    if forall i :: 0 <= i < |ranges| ==> Survives(ranges[i]) {
      SurvivorsAreRestorable(ranges);
    }
  }

  lemma SurvivorsAreRestorable(ranges: seq<Range>)
    requires Maximal(ranges) && forall i :: 0 <= i < |ranges| ==> Survives(ranges[i])
    ensures Restorable(YearsOf(ranges))
  {
    hide YearsOf, Survives, Maximal;
    forall y | y in YearsOf(ranges) && y + 1 in YearsOf(ranges)
      ensures 1000 <= y && y + 1 <= 9999
    {
      SurvivingNeighbours(ranges, y);
    }
  }

  /** Prints a set of years and reads it back: no year is invented, and none is lost exactly for restorable sets. */
  method PrintAndRead(years: set<nat>) returns (text: string, output: set<int>)
    requires years != {}
    ensures output == Union(Split(text)) && output <= years
    ensures output == years <==> Restorable(years)
    ensures (forall y :: y in years ==> 1000 <= y <= 9999) ==> output == years
  {
    hide YearsOf, Split, Join, Union, Maximal;
    var ranges;
    text, ranges := DateStr(years);
    output := ProcessDates(text);
    DatesRoundTrip(years, ranges);
  }
}
