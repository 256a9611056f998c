/**
  The bulk loader of spiders/sql.py: `parse_date`, the `load_records`
  generator that turns the lines of `ur.txt` into movie dicts, and the
  per-record mapping and insert loop of `main`.

  Python values are modelled by `PyValue`; `ast.literal_eval` is a parameter
  (`eval`, `None` when it raises) and so is the database's verdict on one
  INSERT (`accepts`, false when `cursor.execute` raises).
 */
module Loader {
  import opened Wrappers
  import opened Models
  import Text

  // ---------------------------------------------------------------- Python values

  /** The values `ast.literal_eval` can produce (bytes and complex numbers aside). */
  datatype PyValue =
    | PNone
    | PBool(b: bool)
    | PInt(i: int)
    | PFloat(f: real)
    | PStr(s: string)
    | PList(items: seq<PyValue>)
    | PTuple(items: seq<PyValue>)
    | PSet(items: seq<PyValue>)
    | PDict(entries: seq<(PyValue, PyValue)>)

  /** A dict's entries, in insertion order. */
  type Record = seq<(PyValue, PyValue)>

  /** Python truthiness. */
  predicate Truthy(v: PyValue) {
    match v
    case PNone => false
    case PBool(b) => b
    case PInt(i) => i != 0
    case PFloat(f) => f != 0.0
    case PStr(s) => s != []
    case PList(items) => items != []
    case PTuple(items) => items != []
    case PSet(items) => items != []
    case PDict(entries) => entries != []
  }

  /** `d.get(key)` for a string key; a repeated key holds its last value. */
  function Get(d: Record, key: string): (r: Option<PyValue>)
    ensures r.None? <==> forall i :: 0 <= i < |d| ==> d[i].0 != PStr(key)
    ensures r.Some? ==> exists i :: 0 <= i < |d| && d[i] == (PStr(key), r.value)
  {
    if d == [] then None
    else if d[|d| - 1].0 == PStr(key) then Some(d[|d| - 1].1)
    else Get(d[..|d| - 1], key)
  }

  /** `d.get(key, default)` */
  function GetOr(d: Record, key: string, default: PyValue): PyValue {
    var r := Get(d, key);
    if r.Some? then r.value else default
  }

  /** The exceptions the mapping in `main` can raise outside its `try`. */
  datatype Crash =
    | IndexOutOfRange    // IndexError
    | MissingZeroKey     // KeyError: 0
    | NotSubscriptable   // TypeError: object is not subscriptable
    | NotIterable        // TypeError: can only join an iterable
    | NotAString         // TypeError: sequence item: expected str instance
    | NoStrip            // AttributeError: object has no attribute 'strip'

  /** A key equal to `0` in Python (`0 == False == 0.0`). */
  predicate IsZeroKey(k: PyValue) {
    k == PInt(0) || k == PBool(false) || k == PFloat(0.0)
  }

  function ZeroLookup(d: Record): Option<PyValue> {
    if d == [] then None
    else if IsZeroKey(d[|d| - 1].0) then Some(d[|d| - 1].1)
    else ZeroLookup(d[..|d| - 1])
  }

  /** `v[0]` */
  function FirstOf(v: PyValue): Result<PyValue, Crash> {
    match v
    case PList(items) => if items == [] then Err(IndexOutOfRange) else Ok(items[0])
    case PTuple(items) => if items == [] then Err(IndexOutOfRange) else Ok(items[0])
    case PStr(s) => if s == [] then Err(IndexOutOfRange) else Ok(PStr([s[0]]))
    case PDict(entries) =>
      var z := ZeroLookup(entries);
      if z.Some? then Ok(z.value) else Err(MissingZeroKey)
    case _ => Err(NotSubscriptable)
  }

  /**
    `item.get("score") or (item.get("rating") or [None])[0]`: the score when
    it is truthy, else the first element of a truthy `rating`, else None.
   */
  function Score(item: Record): (r: Result<PyValue, Crash>)
    ensures var score := GetOr(item, "score", PNone);
      Truthy(score) ==> r == Ok(score)
    ensures var score := GetOr(item, "score", PNone);
      var rating := GetOr(item, "rating", PNone);
      !Truthy(score) && rating.PList? && rating.items != [] ==> r == Ok(rating.items[0])
    ensures var score := GetOr(item, "score", PNone);
      var rating := GetOr(item, "rating", PNone);
      !Truthy(score) && !Truthy(rating) ==> r == Ok(PNone)
  {
    var score := GetOr(item, "score", PNone);
    if Truthy(score) then Ok(score)
    else
      var rating := GetOr(item, "rating", PNone);
      if Truthy(rating) then FirstOf(rating) else FirstOf(PList([PNone]))
  }

  // ---------------------------------------------------------------- " ".join

  /** The items `for x in v` visits (a string yields its characters, a dict its keys). */
  function Iterate(v: PyValue): Result<seq<PyValue>, Crash> {
    match v
    case PList(items) => Ok(items)
    case PTuple(items) => Ok(items)
    case PSet(items) => Ok(items)
    case PStr(s) => Ok(seq(|s|, i requires 0 <= i < |s| => PStr([s[i]])))
    case PDict(entries) => Ok(seq(|entries|, i requires 0 <= i < |entries| => entries[i].0))
    case _ => Err(NotIterable)
  }

  /** The strings in `vs`, or `None` when one of them is not a string. */
  function Strings(vs: seq<PyValue>): (r: Option<seq<string>>)
    ensures r.Some? <==> forall i :: 0 <= i < |vs| ==> vs[i].PStr?
    ensures r.Some? ==> |r.value| == |vs| && forall i :: 0 <= i < |vs| ==> r.value[i] == vs[i].s
  {
    if vs == [] then Some([])
    else
      var rest := Strings(vs[1..]);
      if vs[0].PStr? && rest.Some? then Some([vs[0].s] + rest.value) else None
  }

  /** `" ".join(v)` */
  function SpaceJoin(v: PyValue): Result<string, Crash> {
    var it := Iterate(v);
    if it.Err? then Err(it.error)
    else
      var strs := Strings(it.value);
      if strs.None? then Err(NotAString) else Ok(Text.JoinWith(strs.value, ' '))
  }

  /**
    `" ".join(item.get(key, []))`: a missing key gives "", a list of strings
    their space-joined text, and `None` (not iterable) an exception.
   */
  function JoinField(item: Record, key: string): (r: Result<string, Crash>)
    ensures Get(item, key).None? ==> r == Ok([])
    ensures Get(item, key) == Some(PNone) ==> r == Err(NotIterable)
    ensures Get(item, key).Some? && Get(item, key).value.PList?
      && Strings(Get(item, key).value.items).Some?
      ==> r == Ok(Text.JoinWith(Strings(Get(item, key).value.items).value, ' '))
  {
    SpaceJoin(GetOr(item, key, PList([])))
  }

  /** Splitting the joined names on the space gives them back when none holds a space. */
  lemma JoinFieldSplitsBack(item: Record, key: string, names: seq<string>)
    requires Get(item, key) == Some(PList(seq(|names|, i requires 0 <= i < |names| => PStr(names[i]))))
    requires |names| >= 1 && forall i :: 0 <= i < |names| ==> ' ' !in names[i]
    ensures JoinField(item, key).Ok? && Text.SplitOn(JoinField(item, key).value, ' ') == names
  {
    var vs := seq(|names|, i requires 0 <= i < |names| => PStr(names[i]));
    assert Strings(vs).value == names;
    Text.SplitJoin(names, ' ');
  }

  // ---------------------------------------------------------------- parse_date

  /** What `parse_date` returns: the year shortcut's text, or a calendar date. */
  datatype DateValue = YearText(text: string) | Calendar(date: Date)

  predicate IsDigit(c: char) { '0' <= c <= '9' }

  function DigitValue(c: char): int { c as int - '0' as int }

  function DigitChar(n: int): char
    requires 0 <= n < 10
  {
    ('0' as int + n) as char
  }

  /** The value of two decimal digits. */
  function Num2(s: string): int
    requires |s| == 2
  {
    10 * DigitValue(s[0]) + DigitValue(s[1])
  }

  predicate IsLeap(y: int) {
    y % 4 == 0 && (y % 100 != 0 || y % 400 == 0)
  }

  function DaysIn(y: int, m: int): int {
    if m == 2 then (if IsLeap(y) then 29 else 28)
    else if m == 4 || m == 6 || m == 9 || m == 11 then 30
    else 31
  }

  /** A date `datetime.date` accepts. */
  predicate ValidDate(d: Date) {
    1 <= d.year <= 9999 && 1 <= d.month <= 12 && 1 <= d.day <= DaysIn(d.year, d.month)
  }

  /** The shape `YYYY-MM-DD`. */
  predicate IsoShaped(s: string) {
    |s| == 10 && s[4] == '-' && s[7] == '-'
    && forall i :: 0 <= i < 10 && i != 4 && i != 7 ==> IsDigit(s[i])
  }

  /** `datetime.fromisoformat(s).date()` on the at most 10 characters kept; `None` when it raises. */
  function IsoDate(s: string): (r: Option<DateValue>)
    ensures r.Some? ==> IsoShaped(s) && r.value.Calendar? && ValidDate(r.value.date)
  {
    if IsoShaped(s) then
      var d := Date(100 * Num2(s[0..2]) + Num2(s[2..4]), Num2(s[5..7]), Num2(s[8..10]));
      if ValidDate(d) then Some(Calendar(d)) else None
    else None
  }

  /**
    `parse_date`: empty gives `None`; otherwise the stripped value with every
    `/` turned into `-` is taken as a bare year when it has 4 characters, and
    else parsed as an ISO date from its first 10 characters.
   */
  function ParseDate(value: string): (r: Option<DateValue>)
    ensures value == [] ==> r == None
    ensures r.Some? && r.value.Calendar? ==> ValidDate(r.value.date)
  {
    if value == [] then None else ParseNormalized(Normalized(value))
  }

  /** `value.strip().replace("/", "-")` */
  function Normalized(value: string): string {
    Text.ReplaceChar(Text.Strip(value), '/', '-')
  }

  /** The checks after normalising: the year shortcut, else the first 10 characters as an ISO date. */
  function ParseNormalized(v: string): (r: Option<DateValue>)
    ensures r.Some? && r.value.Calendar? ==> ValidDate(r.value.date)
  {
    if |v| == 4 then Some(YearText(v + "-01-01"))
    else IsoDate(v[..if |v| < 10 then |v| else 10])
  }

  function Pad2(n: int): string
    requires 0 <= n < 100
  {
    [DigitChar(n / 10), DigitChar(n % 10)]
  }

  /** The `YYYY-MM-DD` text of three numbers, whether or not they make a date. */
  function Render(year: int, month: int, day: int): string
    requires 0 <= year <= 9999 && 0 <= month < 100 && 0 <= day < 100
  {
    Pad2(year / 100) + Pad2(year % 100) + "-" + Pad2(month) + "-" + Pad2(day)
  }

  function FormatDate(d: Date): string
    requires ValidDate(d)
  {
    Render(d.year, d.month, d.day)
  }

  lemma Num2Pad2(n: int)
    requires 0 <= n < 100
    ensures Num2(Pad2(n)) == n
  {
  }

  /**
    Rendered numbers parse back exactly when they make a valid date, and
    the rendering is stripped and slash-free.
   */
  lemma {:induction false} IsoDateRender(year: int, month: int, day: int)
    requires 0 <= year <= 9999 && 0 <= month < 100 && 0 <= day < 100
    ensures var f := Render(year, month, day);
      && |f| == 10 && '/' !in f && IsDigit(f[0]) && IsDigit(f[9])
      && IsoDate(f) == (if ValidDate(Date(year, month, day)) then Some(Calendar(Date(year, month, day))) else None)
  {
    var f := Render(year, month, day);
    Num2Pad2(year / 100);
    Num2Pad2(year % 100);
    Num2Pad2(month);
    Num2Pad2(day);
    assert f[0..2] == Pad2(year / 100) && f[2..4] == Pad2(year % 100);
    assert f[5..7] == Pad2(month) && f[8..10] == Pad2(day);
    assert IsoShaped(f);
  }

  lemma {:induction false} TrimStartReplace(s: string, a: char, b: char)
    requires !Text.IsSpace(a) && !Text.IsSpace(b)
    ensures Text.TrimStart(Text.ReplaceChar(s, a, b)) == Text.ReplaceChar(Text.TrimStart(s), a, b)
    decreases |s|
  {
    if s != [] && Text.IsSpace(s[0]) {
      assert Text.ReplaceChar(s, a, b)[1..] == Text.ReplaceChar(s[1..], a, b);
      TrimStartReplace(s[1..], a, b);
    }
  }

  lemma {:induction false} TrimEndReplace(s: string, a: char, b: char)
    requires !Text.IsSpace(a) && !Text.IsSpace(b)
    ensures Text.TrimEnd(Text.ReplaceChar(s, a, b)) == Text.ReplaceChar(Text.TrimEnd(s), a, b)
    decreases |s|
  {
    var r := Text.ReplaceChar(s, a, b);
    if s != [] && Text.IsSpace(s[|s| - 1]) {
      assert r[..|r| - 1] == Text.ReplaceChar(s[..|s| - 1], a, b);
      TrimEndReplace(s[..|s| - 1], a, b);
    }
  }

  /** Stripping and replacing non-space characters commute. */
  lemma StripReplace(s: string, a: char, b: char)
    requires !Text.IsSpace(a) && !Text.IsSpace(b)
    ensures Text.Strip(Text.ReplaceChar(s, a, b)) == Text.ReplaceChar(Text.Strip(s), a, b)
  {
    TrimStartReplace(s, a, b);
    TrimEndReplace(Text.TrimStart(s), a, b);
  }

  lemma ReplaceTwice(s: string, a: char, b: char)
    requires a != b
    ensures Text.ReplaceChar(Text.ReplaceChar(s, a, b), a, b) == Text.ReplaceChar(s, a, b)
  {
    var r := Text.ReplaceChar(s, a, b);
    var rr := Text.ReplaceChar(r, a, b);
    forall i | 0 <= i < |r| ensures rr[i] == r[i] {
    }
  }

  lemma ReplaceAbsent(s: string, a: char, b: char)
    requires a !in s
    ensures Text.ReplaceChar(s, a, b) == s
  {
    var r := Text.ReplaceChar(s, a, b);
    forall i | 0 <= i < |s| ensures r[i] == s[i] {
    }
  }

  /** `parse_date` strips before anything else: surrounding white space never matters. */
  lemma ParseStripsFirst(value: string)
    ensures ParseDate(value) == ParseDate(Text.Strip(value))
  {
    var t := Text.Strip(value);
    if t != [] {
      Text.StripStripped(t);
    } else if value != [] {
      assert Normalized(value) == [];
    }
  }

  /** `/` and `-` are interchangeable in a date: the replacement happens before any check. */
  lemma SlashesAreDashes(value: string)
    ensures ParseDate(Text.ReplaceChar(value, '/', '-')) == ParseDate(value)
  {
    StripReplace(value, '/', '-');
    ReplaceTwice(Text.Strip(value), '/', '-');
  }

  /** Any four characters (no white space, no slash) are taken as a year, with no digit check. */
  lemma FourCharactersAreAYear(v: string)
    requires |v| == 4 && Text.IsStripped(v) && '/' !in v
    ensures ParseDate(v) == Some(YearText(v + "-01-01"))
  {
    Text.StripStripped(v);
    ReplaceAbsent(v, '/', '-');
  }

  /** A stripped value whose first 10 characters hold no slash is parsed from those 10 characters. */
  lemma ParseFromPrefix(s: string, f: string)
    requires Text.IsStripped(s) && |f| == 10 && |s| >= 10 && s[..10] == f && '/' !in f
    ensures ParseDate(s) == IsoDate(f)
  {
    var v := Text.ReplaceChar(s, '/', '-');
    assert Normalized(s) == v by { Text.StripStripped(s); }
    assert v[..10] == f by { ReplaceKeepsPrefix(s, f, '/', '-'); }
  }

  /** Replacing a character the prefix `f` lacks leaves that prefix alone. */
  lemma ReplaceKeepsPrefix(s: string, f: string, a: char, b: char)
    requires |f| <= |s| && s[..|f|] == f && a !in f
    ensures Text.ReplaceChar(s, a, b)[..|f|] == f
  {
    var v := Text.ReplaceChar(s, a, b);
    forall i | 0 <= i < |f| ensures v[i] == f[i] {
      assert s[i] == f[i];
    }
  }

  /**
    A formatted date followed by anything that does not end in white space
    (a time, a region note) parses back to the date: only the first 10
    characters count.
   */
  lemma ParseDateRoundTrip(d: Date, rest: string)
    requires ValidDate(d)
    requires rest == [] || !Text.IsSpace(rest[|rest| - 1])
    ensures ParseDate(FormatDate(d) + rest) == Some(Calendar(d))
  {
    var f := FormatDate(d);
    IsoDateRender(d.year, d.month, d.day);
    ParseFromPrefix(f + rest, f);
  }

  /** A stripped value of any other length under 10 (say `2022-5-20`) fails to parse. */
  lemma ShortValuesFail(value: string)
    requires value != [] && |Text.Strip(value)| != 4 && |Text.Strip(value)| < 10
    ensures ParseDate(value) == None
  {
  }

  /**
    Numbers that make no date (`2022-02-30`, month 13, day 0, year 0) are
    rejected, whatever follows them.
   */
  lemma InvalidDatesFail(year: int, month: int, day: int, rest: string)
    requires 0 <= year <= 9999 && 0 <= month < 100 && 0 <= day < 100
    requires !ValidDate(Date(year, month, day))
    requires rest == [] || !Text.IsSpace(rest[|rest| - 1])
    ensures ParseDate(Render(year, month, day) + rest) == None
  {
    var f := Render(year, month, day);
    IsoDateRender(year, month, day);
    ParseFromPrefix(f + rest, f);
  }

  /**
    `parse_date(item.get("release_date", ""))`: a falsy value gives `None`;
    a truthy value that is not a string has no `strip` and raises.
   */
  function ReleaseDate(item: Record): (r: Result<Option<DateValue>, Crash>)
    ensures var v := GetOr(item, "release_date", PStr([]));
      && (!Truthy(v) ==> r == Ok(None))
      && (v.PStr? ==> r == Ok(ParseDate(v.s)))
      && (Truthy(v) && !v.PStr? ==> r == Err(NoStrip))
  {
    var v := GetOr(item, "release_date", PStr([]));
    if v.PStr? then Ok(ParseDate(v.s))
    else if !Truthy(v) then Ok(None)
    else Err(NoStrip)
  }

  // ---------------------------------------------------------------- load_records

  /** The dict items of a list, in order. */
  function DictsOf(vs: seq<PyValue>): (r: seq<Record>)
    ensures |r| <= |vs|
  {
    if vs == [] then []
    else DictsOf(vs[..|vs| - 1]) + (if vs[|vs| - 1].PDict? then [vs[|vs| - 1].entries] else [])
  }

  /** A list yields exactly its dict items. */
  lemma {:induction false} DictsOfMembers(vs: seq<PyValue>, e: Record)
    ensures e in DictsOf(vs) <==> PDict(e) in vs
    decreases |vs|
  {
    if vs != [] {
      var init := vs[..|vs| - 1];
      DictsOfMembers(init, e);
      assert vs == init + [vs[|vs| - 1]];
    }
  }

  /** What the `try` block yields for one parsed value: a dict alone, a list's dict items, else nothing. */
  function ValueItems(data: Option<PyValue>): seq<Record> {
    if data.None? then []
    else if data.value.PDict? then [data.value.entries]
    else if data.value.PList? then DictsOf(data.value.items)
    else []
  }

  /**
    The records one line yields: none for a blank line or one that fails to
    parse (`eval` gives `None`), else those of the parsed value.
   */
  function LineItems(line: string, eval: string -> Option<PyValue>): seq<Record> {
    var s := Text.Strip(line);
    if s == [] then [] else ValueItems(eval(s))
  }

  /** The concatenation of `f(x)` over `xs`, in order. */
  function FlatMap<A, B>(xs: seq<A>, f: A -> seq<B>): seq<B> {
    if xs == [] then [] else FlatMap(xs[..|xs| - 1], f) + f(xs[|xs| - 1])
  }

  lemma {:induction false} FlatMapAppend<A, B>(a: seq<A>, b: seq<A>, f: A -> seq<B>)
    ensures FlatMap(a + b, f) == FlatMap(a, f) + FlatMap(b, f)
    decreases |b|
  {
    if b == [] {
      assert a + b == a;
    } else {
      var b' := b[..|b| - 1];
      assert (a + b)[..|a + b| - 1] == a + b';
      FlatMapAppend(a, b', f);
    }
  }

  function LineReader(eval: string -> Option<PyValue>): string -> seq<Record> {
    line => LineItems(line, eval)
  }

  lemma FlatMapStep<A, B>(xs: seq<A>, i: nat, f: A -> seq<B>)
    requires i < |xs|
    ensures FlatMap(xs[..i + 1], f) == FlatMap(xs[..i], f) + f(xs[i])
  {
    assert xs[..i + 1][..i] == xs[..i];
  }

  /** Every record of a file, line by line. */
  function RecordsOf(lines: seq<string>, eval: string -> Option<PyValue>): seq<Record> {
    FlatMap(lines, LineReader(eval))
  }

  /** Lines are independent: the records of two files read one after the other. */
  lemma RecordsOfAppend(a: seq<string>, b: seq<string>, eval: string -> Option<PyValue>)
    ensures RecordsOf(a + b, eval) == RecordsOf(a, eval) + RecordsOf(b, eval)
  {
    FlatMapAppend(a, b, LineReader(eval));
  }

  /**
    A line that yields nothing (blank, unparsable, neither dict nor list)
    is skipped and the lines after it are still read.
   */
  lemma BadLineSkipped(a: seq<string>, line: string, b: seq<string>, eval: string -> Option<PyValue>)
    requires LineItems(line, eval) == []
    ensures RecordsOf(a + [line] + b, eval) == RecordsOf(a, eval) + RecordsOf(b, eval)
  {
    var ra, rb := RecordsOf(a, eval), RecordsOf(b, eval);
    RecordsOfAppend(a + [line], b, eval);
    RecordsOfAppend(a, [line], eval);
    assert [line][..0] == [];
    assert RecordsOf([line], eval) == [];
    assert RecordsOf(a + [line], eval) == ra;
  }

  /** The `try` block for one stripped, non-blank line, with its loop over a list's items. */
  method LineRecords(line: string, eval: string -> Option<PyValue>) returns (items: seq<Record>)
    requires line != []
    ensures items == ValueItems(eval(line))
  {
    items := [];
    var data := eval(line);
    if data.Some? && data.value.PDict? {
      return [data.value.entries];
    }
    if data.None? || !data.value.PList? {
      return [];
    }
    var vs := data.value.items;
    var k := 0;
    while k < |vs|
      invariant 0 <= k <= |vs|
      invariant items == DictsOf(vs[..k])
    {
      assert vs[..k + 1][..k] == vs[..k];
      if vs[k].PDict? {
        items := items + [vs[k].entries];
      }
      k := k + 1;
    }
    assert vs[..|vs|] == vs;
  }

  /** `load_records`: the generator's loop over the lines of the file. */
  method LoadRecords(lines: seq<string>, eval: string -> Option<PyValue>) returns (items: seq<Record>)
    ensures items == RecordsOf(lines, eval)
  {
    items := [];
    var n := 0;
    while n < |lines|
      invariant 0 <= n <= |lines|
      invariant items == RecordsOf(lines[..n], eval)
    {
      assert lines[..n + 1][..n] == lines[..n];
      var line := Text.Strip(lines[n]);
      if line != [] {
        var found := LineRecords(line, eval);
        items := items + found;
      }
      n := n + 1;
    }
    assert lines[..|lines|] == lines;
  }

  // ---------------------------------------------------------------- main

  /** The values one INSERT receives. */
  datatype MovieRow = MovieRow(
    title: PyValue,
    score: PyValue,
    date: Option<DateValue>,
    poster: PyValue,
    actors: string,
    region: string,
    movieType: string,
    summary: PyValue)

  /**
    The mapping at the top of `main`'s loop, evaluated field by field; the
    first exception is the one raised.
   */
  function MapRecord(item: Record): (r: Result<MovieRow, Crash>)
    ensures r.Ok? <==> (Score(item).Ok? && ReleaseDate(item).Ok? && JoinField(item, "actors").Ok?
      && JoinField(item, "regions").Ok? && JoinField(item, "types").Ok?)
    ensures r.Ok? ==> (r.value.actors == JoinField(item, "actors").value
      && r.value.region == JoinField(item, "regions").value
      && r.value.movieType == JoinField(item, "types").value
      && r.value.title == GetOr(item, "title", PStr([]))
      && r.value.summary == GetOr(item, "summary", PStr([]))
      && r.value.poster == GetOr(item, "cover_url", PStr([])))
  {
    var score := Score(item);
    var date := ReleaseDate(item);
    var actors := JoinField(item, "actors");
    var region := JoinField(item, "regions");
    var movieType := JoinField(item, "types");
    if score.Err? then Err(score.error)
    else if date.Err? then Err(date.error)
    else if actors.Err? then Err(actors.error)
    else if region.Err? then Err(region.error)
    else if movieType.Err? then Err(movieType.error)
    else Ok(MovieRow(GetOr(item, "title", PStr([])), score.value, date.value, GetOr(item, "cover_url", PStr([])),
                     actors.value, region.value, movieType.value, GetOr(item, "summary", PStr([]))))
  }

  /** The row an empty dict maps to: every text field "", no score, no date. */
  const EmptyRow: MovieRow := MovieRow(PStr([]), PNone, None, PStr([]), [], [], [], PStr([]))

  /** The first exception the mapping raises over `items`, if any. */
  function FirstCrash(items: seq<Record>): Option<Crash> {
    if items == [] then None
    else
      var earlier := FirstCrash(items[..|items| - 1]);
      if earlier.Some? then earlier
      else
        var r := MapRecord(items[|items| - 1]);
        if r.Err? then Some(r.error) else None
  }

  /** The row one record contributes: its mapping, when it maps and the database accepts it. */
  function RowOf(item: Record, accepts: MovieRow -> bool): seq<MovieRow> {
    var r := MapRecord(item);
    if r.Ok? && accepts(r.value) then [r.value] else []
  }

  /** The rows inserted: every record that maps and that the database accepts, in order. */
  function Rows(items: seq<Record>, accepts: MovieRow -> bool): seq<MovieRow> {
    FlatMap(items, RowMaker(accepts))
  }

  function RowMaker(accepts: MovieRow -> bool): Record -> seq<MovieRow> {
    item => RowOf(item, accepts)
  }

  /**
    What `main` commits as written: the mapping runs outside the `try`, so
    one record that raises ends the script before `conn.commit()` and the
    whole batch is lost.
   */
  function CommittedAsWritten(items: seq<Record>, accepts: MovieRow -> bool): seq<MovieRow> {
    if FirstCrash(items).Some? then [] else Rows(items, accepts)
  }

  /** A crash in a prefix is the first crash of the whole sequence. */
  lemma {:induction false} FirstCrashPrefix(items: seq<Record>, k: nat)
    requires k <= |items| && FirstCrash(items[..k]).Some?
    ensures FirstCrash(items) == FirstCrash(items[..k])
    decreases |items| - k
  {
    if k < |items| {
      var longer := items[..k + 1];
      assert longer[..k] == items[..k];
      FirstCrashPrefix(items, k + 1);
    } else {
      assert items[..k] == items;
    }
  }

  /** Records are independent once a bad one is skipped. */
  lemma RowsAppend(a: seq<Record>, b: seq<Record>, accepts: MovieRow -> bool)
    ensures Rows(a + b, accepts) == Rows(a, accepts) + Rows(b, accepts)
  {
    FlatMapAppend(a, b, RowMaker(accepts));
  }

  /**
    The loss: a good record followed by one whose `actors` is `None` commits
    nothing as written, where skipping the bad record commits the good one.
   */
  lemma OneBadRecordLosesTheBatch(accepts: MovieRow -> bool)
    requires accepts(EmptyRow)
    ensures var items := [[], [(PStr("actors"), PNone)]];
      && CommittedAsWritten(items, accepts) == []
      && Rows(items, accepts) == [EmptyRow]
  {
    var good: Record := [];
    var bad: Record := [(PStr("actors"), PNone)];
    var items := [good, bad];
    assert MapRecord(good) == Ok(EmptyRow);
    assert Get(bad, "actors") == Some(PNone);
    assert JoinField(bad, "actors") == Err(NotIterable);
    assert MapRecord(bad).Err?;
    assert items[..1] == [good] && items[..2] == items && items[..0] == [];
    FlatMapStep(items, 0, RowMaker(accepts));
    FlatMapStep(items, 1, RowMaker(accepts));
    assert RowOf(bad, accepts) == [];
    assert FirstCrash(items[..1]).None?;
  }

  lemma FirstCrashStep(items: seq<Record>, i: nat)
    requires i < |items| && FirstCrash(items[..i]).None?
    ensures FirstCrash(items[..i + 1]) == (if MapRecord(items[i]).Err? then Some(MapRecord(items[i]).error) else None)
  {
    assert items[..i + 1][..i] == items[..i];
  }

  /** The insert loop of `main` as written: a mapping exception aborts before the commit. */
  method InsertAsWritten(items: seq<Record>, accepts: MovieRow -> bool)
    returns (committed: seq<MovieRow>, crash: Option<Crash>)
    ensures crash == FirstCrash(items)
    ensures committed == CommittedAsWritten(items, accepts)
  {
    var pending: seq<MovieRow> := [];
    var i := 0;
    while i < |items|
      invariant 0 <= i <= |items|
      invariant FirstCrash(items[..i]).None?
      invariant pending == Rows(items[..i], accepts)
    {
      FirstCrashStep(items, i);
      FlatMapStep(items, i, RowMaker(accepts));
      var row := MapRecord(items[i]);
      if row.Err? {
        FirstCrashPrefix(items, i + 1);
        return [], Some(row.error);
      }
      if accepts(row.value) {
        pending := pending + [row.value];
      }
      i := i + 1;
    }
    assert items[..|items|] == items;
    committed, crash := pending, None;
  }

  /** `main` as written: load every record, then the insert loop. */
  method RunAsWritten(lines: seq<string>, eval: string -> Option<PyValue>, accepts: MovieRow -> bool)
    returns (committed: seq<MovieRow>, crash: Option<Crash>)
    ensures crash == FirstCrash(RecordsOf(lines, eval))
    ensures committed == CommittedAsWritten(RecordsOf(lines, eval), accepts)
  {
    var items := LoadRecords(lines, eval);
    committed, crash := InsertAsWritten(items, accepts);
  }

  /**
    The evidently intended loop: a record that cannot be mapped is skipped
    like one the database refuses, and the rest are committed.
   */
  method Run(lines: seq<string>, eval: string -> Option<PyValue>, accepts: MovieRow -> bool)
    returns (committed: seq<MovieRow>)
    ensures committed == Rows(RecordsOf(lines, eval), accepts)
  {
    var items := LoadRecords(lines, eval);
    committed := [];
    var i := 0;
    while i < |items|
      invariant 0 <= i <= |items|
      invariant committed == Rows(items[..i], accepts)
    {
      FlatMapStep(items, i, RowMaker(accepts));
      var row := MapRecord(items[i]);
      if row.Ok? && accepts(row.value) {
        committed := committed + [row.value];
      }
      i := i + 1;
    }
    assert items[..|items|] == items;
  }

  // ---------------------------------------------------------------- joined lists as tokens

  lemma {:induction false} JoinEnds(pieces: seq<string>, sep: char)
    requires |pieces| >= 1 && pieces[0] != [] && pieces[|pieces| - 1] != []
    ensures var j := Text.JoinWith(pieces, sep);
      j != [] && j[0] == pieces[0][0] && j[|j| - 1] == pieces[|pieces| - 1][|pieces[|pieces| - 1]| - 1]
    decreases |pieces|
  {
    if |pieces| > 1 {
      var rest := pieces[1..];
      assert rest[|rest| - 1] == pieces[|pieces| - 1];
      JoinEndsTail(rest, sep);
    }
  }

  lemma {:induction false} JoinEndsTail(pieces: seq<string>, sep: char)
    requires |pieces| >= 1 && pieces[|pieces| - 1] != []
    ensures var j := Text.JoinWith(pieces, sep);
      j != [] && j[|j| - 1] == pieces[|pieces| - 1][|pieces[|pieces| - 1]| - 1]
    decreases |pieces|
  {
    if |pieces| > 1 {
      var rest := pieces[1..];
      assert rest[|rest| - 1] == pieces[|pieces| - 1];
      JoinEndsTail(rest, sep);
    }
  }

  /**
    The loader joins a movie's genres (and actors, and regions) with a
    space, and the recommender's tokeniser never splits on a space: two or
    more clean genres loaded together count as one single token.
   */
  lemma LoadedGenresAreOneToken(types: seq<string>)
    requires |types| >= 2 && forall i :: 0 <= i < |types| ==> Text.IsToken(types[i])
    ensures var joined := Text.JoinWith(types, ' ');
      Text.SplitTokens(Some(joined)) == [joined] && |Text.SplitTokens(Some(joined))| < |types|
  {
    var joined := Text.JoinWith(types, ' ');
    JoinEnds(types, ' ');
    forall c | c in joined ensures !Text.IsSeparator(c) {
      Text.JoinChars(types, ' ', c);
    }
    assert Text.IsToken(joined);
    Text.SingleToken(joined);
  }
}
