/** The schedule resolver of the scheduler's command-line tool
    (src/databricks_apps_scheduler/cli.py): it turns the configuration text
    into app names and a set of active weekdays, validates hours, applies the
    weekly window rule and chooses between a forced and a resolved action. */
module Resolver {
  import opened Wrappers
  import opened Text

  // ---------------------------------------------------------------------
  // Comma-separated tokens

  /** What `_csv_tokens` can yield: non-empty, comma-free, stripped strings. */
  predicate AllTokens(ts: seq<string>) {
    forall i :: 0 <= i < |ts| ==> ts[i] != [] && ',' !in ts[i] && Stripped(ts[i])
  }

  /** The non-empty stripped pieces, in order. */
  function Tokens(parts: seq<string>): (ts: seq<string>)
    requires forall i :: 0 <= i < |parts| ==> ',' !in parts[i]
  {
    if parts == [] then []
    else
      var t := Strip(parts[0]);
      (if t == [] then [] else [t]) + Tokens(parts[1..])
  }

  lemma {:induction false} TokensAreTokens(parts: seq<string>)
    requires forall i :: 0 <= i < |parts| ==> ',' !in parts[i]
    ensures AllTokens(Tokens(parts))
  {
    if parts != [] {
      var t := Strip(parts[0]);
      StripSpec(parts[0]);
      TokensAreTokens(parts[1..]);
      var head: seq<string> := if t == [] then [] else [t];
      var rest := Tokens(parts[1..]);
      assert Tokens(parts) == head + rest;
      forall i | 0 <= i < |head + rest|
        ensures (head + rest)[i] != [] && ',' !in (head + rest)[i] && Stripped((head + rest)[i])
      {
        if i < |head| {
          assert (head + rest)[i] == t;
        } else {
          assert (head + rest)[i] == rest[i - |head|];
        }
      }
    }
  }

  /** `_csv_tokens(raw)`: split on commas, strip, drop empty tokens. */
  function CsvTokens(raw: string): (ts: seq<string>)
    ensures AllTokens(ts)
  {
    SplitSpec(raw, ',');
    TokensAreTokens(Split(raw, ','));
    Tokens(Split(raw, ','))
  }

  lemma {:induction false} TokensOfTokens(ts: seq<string>)
    requires AllTokens(ts)
    ensures Tokens(ts) == ts
  {
    if ts != [] {
      StripStripped(ts[0]);
      TokensOfTokens(ts[1..]);
      assert ts == [ts[0]] + ts[1..];
    }
  }

  /** Tokens joined with commas are read back unchanged: `_csv_tokens`
      inverts `",".join` on its own kind of output. */
  lemma CsvJoinRoundTrip(ts: seq<string>)
    requires AllTokens(ts)
    ensures CsvTokens(Join(ts, ',')) == ts
  {
    if ts == [] {
      assert Split([], ',') == [[]];
      assert Strip([]) == [];
    } else {
      SplitJoin(ts, ',');
      TokensOfTokens(ts);
    }
  }

  // ---------------------------------------------------------------------
  // App names: deduplication in first-seen order

  predicate NoDuplicates(s: seq<string>) {
    forall i, j :: 0 <= i < j < |s| ==> s[i] != s[j]
  }

  /** The elements of `xs`, each kept where it is first seen. */
  function Dedup(xs: seq<string>): (r: seq<string>)
    ensures forall i :: 0 <= i < |r| ==> r[i] in xs
  {
    if xs == [] then []
    else
      var r := Dedup(xs[..|xs| - 1]);
      var x := xs[|xs| - 1];
      if x in r then r else r + [x]
  }

  /** Deduplication keeps every element and repeats none. */
  lemma {:induction false} DedupSpec(xs: seq<string>)
    ensures forall x :: x in Dedup(xs) <==> x in xs
    ensures NoDuplicates(Dedup(xs))
  {
    if xs != [] {
      var n := |xs| - 1;
      var p := xs[..n];
      var x := xs[n];
      DedupSpec(p);
      assert xs == p + [x];
      var q := Dedup(p);
      if x !in q {
        var r := q + [x];
        assert Dedup(xs) == r;
        forall i, j | 0 <= i < j < |r| ensures r[i] != r[j] {
          if j == |q| {
            assert r[i] == q[i];
          } else {
            assert r[i] == q[i] && r[j] == q[j];
          }
        }
      }
    }
  }

  /** The position where `x` first occurs in `xs`. */
  function FirstIndex(xs: seq<string>, x: string): (k: nat)
    requires x in xs
    ensures k < |xs| && xs[k] == x
    ensures forall j :: 0 <= j < k ==> xs[j] != x
  {
    if xs[0] == x then 0 else 1 + FirstIndex(xs[1..], x)
  }

  lemma FirstIndexPrefix(xs: seq<string>, n: nat, x: string)
    requires n <= |xs| && x in xs[..n]
    ensures x in xs && FirstIndex(xs, x) == FirstIndex(xs[..n], x)
  {
    var k := FirstIndex(xs[..n], x);
    assert xs[k] == x;
  }

  /** Deduplication keeps first-seen order: the kept names stand in the
      order of their first occurrences. */
  lemma {:induction false} DedupOrder(xs: seq<string>)
    ensures forall i, j :: 0 <= i < j < |Dedup(xs)| ==>
      FirstIndex(xs, Dedup(xs)[i]) < FirstIndex(xs, Dedup(xs)[j])
  {
    if xs != [] {
      var n := |xs| - 1;
      var p := xs[..n];
      var x := xs[n];
      var q := Dedup(p);
      var r := Dedup(xs);
      DedupOrder(p);
      DedupSpec(p);
      forall y | y in q
        ensures FirstIndex(xs, y) == FirstIndex(p, y) < n
      {
        FirstIndexPrefix(xs, n, y);
      }
      if x !in q {
        assert r == q + [x];
        assert x !in p;
        assert FirstIndex(xs, x) == n;
      } else {
        assert r == q;
      }
    }
  }

  /** A list without duplicates is its own deduplication. */
  lemma {:induction false} DedupDistinct(xs: seq<string>)
    requires NoDuplicates(xs)
    ensures Dedup(xs) == xs
  {
    if xs != [] {
      var n := |xs| - 1;
      DedupDistinct(xs[..n]);
      assert xs[n] !in xs[..n];
      assert xs == xs[..n] + [xs[n]];
    }
  }

  /** `parse_app_names(raw)`, as a value. */
  function AppNames(raw: string): seq<string> {
    Dedup(CsvTokens(raw))
  }

  /** `parse_app_names`: keeps each token the first time it is seen. */
  method ParseAppNames(raw: string) returns (names: seq<string>)
    ensures names == AppNames(raw)
  {
    var tokens := CsvTokens(raw);
    var seen: set<string> := {};
    names := [];
    var i := 0;
    while i < |tokens|
      invariant 0 <= i <= |tokens|
      invariant names == Dedup(tokens[..i])
      invariant forall n :: n in seen <==> n in names
    {
      var candidate := tokens[i];
      assert tokens[..i + 1][..i] == tokens[..i];
      if candidate !in seen {
        seen := seen + {candidate};
        names := names + [candidate];
      }
      i := i + 1;
    }
    assert tokens[..i] == tokens;
  }

  /** Every non-empty stripped token appears exactly once, in first-seen
      order, and nothing else appears. */
  lemma AppNamesSpec(raw: string)
    ensures NoDuplicates(AppNames(raw))
    ensures forall n :: n in AppNames(raw) <==> n in CsvTokens(raw)
    ensures AllTokens(AppNames(raw))
    ensures forall i, j :: 0 <= i < j < |AppNames(raw)| ==>
      FirstIndex(CsvTokens(raw), AppNames(raw)[i]) < FirstIndex(CsvTokens(raw), AppNames(raw)[j])
  {
    var ts := CsvTokens(raw);
    DedupSpec(ts);
    DedupOrder(ts);
    DedupTokens(ts);
  }

  lemma DedupTokens(ts: seq<string>)
    requires AllTokens(ts)
    ensures AllTokens(Dedup(ts))
  {
    var names := Dedup(ts);
    forall i | 0 <= i < |names|
      ensures names[i] != [] && ',' !in names[i] && Stripped(names[i])
    {
      assert names[i] in ts;
    }
  }

  /** Parsing is idempotent on its own output: re-joining the names with
      commas and parsing again gives the same names. */
  lemma AppNamesStable(raw: string)
    ensures AppNames(Join(AppNames(raw), ',')) == AppNames(raw)
  {
    var names := AppNames(raw);
    AppNamesSpec(raw);
    assert NoDuplicates(names);
    CsvJoinRoundTrip(names);
    DedupDistinct(names);
  }

  /** The example of the tool's own tests, `" app-a,app-b,app-a,, app-c "`,
      for any three distinct names: the comma-joined pieces `" " + a`, `b`,
      `a`, `""` and `" " + c + " "` give `[a, b, c]`; the padding and the
      empty token go, and the repeated name is kept once, where it is first
      seen. */
  lemma AppNamesPattern(a: string, b: string, c: string)
    requires AllTokens([a, b, c]) && a != b && a != c && b != c
    ensures AppNames(Join([" " + a, b, a, "", " " + c + " "], ',')) == [a, b, c]
  {
    assert a == [a, b, c][0] && b == [a, b, c][1] && c == [a, b, c][2];
    var parts := [" " + a, b, a, "", " " + c + " "];
    assert forall i :: 0 <= i < |parts| ==> ',' !in parts[i];
    SplitJoin(parts, ',');
    assert Strip(" " + a) == a by {
      StripPadded(" ", a, "");
      assert " " + a + "" == " " + a;
    }
    assert Strip(" " + c + " ") == c by {
      StripPadded(" ", c, " ");
    }
    assert Strip(a) == a && Strip(b) == b by {
      StripStripped(a);
      StripStripped(b);
    }
    TokensPattern(" " + a, a, b, c, " " + c + " ");
    DedupPattern(a, b, c);
  }

  lemma TokensPattern(x1: string, a: string, b: string, c: string, x5: string)
    requires ',' !in x1 && ',' !in a && ',' !in b && ',' !in x5
    requires Strip(x1) == a && Strip(a) == a && Strip(b) == b && Strip(x5) == c
    requires a != [] && b != [] && c != []
    ensures Tokens([x1, b, a, "", x5]) == [a, b, a, c]
  {
    var t3 := [a, "", x5];
    var t2 := [b] + t3;
    var t1 := [x1] + t2;
    assert Tokens(t3) == [a, c] by { TokensPatternTail(a, c, x5); }
    assert Tokens(t2) == [b, a, c] by { TokensCons(b, b, t3); }
    assert Tokens(t1) == [a, b, a, c] by { TokensCons(x1, a, t2); }
    assert t1 == [x1, b, a, "", x5];
  }

  lemma TokensPatternTail(a: string, c: string, x5: string)
    requires ',' !in a && ',' !in x5 && Strip(a) == a && Strip(x5) == c
    requires a != [] && c != []
    ensures Tokens([a, "", x5]) == [a, c]
  {
    assert Tokens(["", x5]) == [c] by { TokensBlankThen(x5, c); }
    TokensCons(a, a, ["", x5]);
    assert [a] + ["", x5] == [a, "", x5];
  }

  lemma TokensBlankThen(x5: string, c: string)
    requires ',' !in x5 && Strip(x5) == c && c != []
    ensures Tokens(["", x5]) == [c]
  {
    assert Tokens([x5]) == [c] by { TokensCons(x5, c, []); assert [x5] + [] == [x5]; }
    TokensCons("", "", [x5]);
    assert [""] + [x5] == ["", x5];
  }

  /** One more piece in front adds its stripped form, when non-empty. */
  lemma TokensCons(part: string, t: string, rest: seq<string>)
    requires ',' !in part && Strip(part) == t && forall i :: 0 <= i < |rest| ==> ',' !in rest[i]
    ensures Tokens([part] + rest) == (if t == [] then [] else [t]) + Tokens(rest)
  {
    assert ([part] + rest)[0] == part;
    assert ([part] + rest)[1..] == rest;
  }

  lemma DedupPattern(a: string, b: string, c: string)
    requires a != b && a != c && b != c
    ensures Dedup([a, b, a, c]) == [a, b, c]
  {
    var s1, s2, s3 := [a], [a, b], [a, b, a];
    assert s1[..0] == [] && Dedup(s1) == [a];
    assert s2[..1] == s1 && Dedup(s2) == [a, b];
    assert s3[..2] == s2 && Dedup(s3) == [a, b];
    assert [a, b, a, c][..3] == s3;
  }

  // ---------------------------------------------------------------------
  // Active days

  /** Monday is 0, Sunday is 6. */
  type Day = d: int | 0 <= d <= 6

  /** `set(range(7))`: every weekday. */
  const ALL_DAYS: set<int> := {0, 1, 2, 3, 4, 5, 6}

  datatype DaysError = InvalidWeekday(token: string) | NoActiveDays

  /** The messages of the two `ValueError`s `parse_active_days` raises. */
  function DaysErrorMessage(e: DaysError): string {
    match e
    case InvalidWeekday(token) => "Invalid weekday '" + token + "'. Expected integers in the range 0..6."
    case NoActiveDays => "At least one active day must be configured."
  }

  /** The weekday a token names: `int(token)` when that lies in 0..6. */
  function ParseWeekday(token: string): (r: Option<int>)
    ensures r.Some? ==> 0 <= r.value <= 6 && ParseInt(token) == r
    ensures r.None? ==> ParseInt(token).None? || ParseInt(token).value !in ALL_DAYS
  {
    match ParseInt(token)
    case Some(v) => if 0 <= v <= 6 then Some(v) else None
    case None => None
  }

  /** `ts[k]`, which is `token`, is the first token that names no weekday. */
  predicate FirstRejected(ts: seq<string>, k: int, token: string) {
    && 0 <= k < |ts| && ts[k] == token && ParseWeekday(token).None?
    && forall i :: 0 <= i < k ==> ParseWeekday(ts[i]).Some?
  }

  /** The weekdays of `ts`, or the first token that names none. */
  function CollectDays(ts: seq<string>): Result<set<int>, string> {
    if ts == [] then Ok({})
    else
      match CollectDays(ts[..|ts| - 1])
      case Err(t) => Err(t)
      case Ok(days) =>
        match ParseWeekday(ts[|ts| - 1])
        case None => Err(ts[|ts| - 1])
        case Some(v) => Ok(days + {v})
  }

  /** Collecting succeeds exactly when every token names a weekday, and then
      yields exactly those weekdays; otherwise it reports the first token
      that names none. */
  lemma {:induction false} CollectDaysSpec(ts: seq<string>)
    ensures CollectDays(ts).Ok? <==> forall i :: 0 <= i < |ts| ==> ParseWeekday(ts[i]).Some?
    ensures CollectDays(ts).Ok? ==> forall v :: v in CollectDays(ts).value <==>
      exists i :: 0 <= i < |ts| && ParseWeekday(ts[i]) == Some(v)
    ensures CollectDays(ts).Err? ==> exists k :: FirstRejected(ts, k, CollectDays(ts).error)
  {
    if ts != [] {
      var n := |ts| - 1;
      var p := ts[..n];
      CollectDaysSpec(p);
      assert forall i :: 0 <= i < n ==> p[i] == ts[i];
      var c := CollectDays(p);
      if c.Err? {
        var k :| FirstRejected(p, k, c.error);
        assert FirstRejected(ts, k, c.error);
      } else if ParseWeekday(ts[n]).None? {
        assert FirstRejected(ts, n, ts[n]);
      } else {
        CollectedLast(ts);
      }
    }
  }

  /** The step of `CollectDaysSpec` where the last token names a weekday. */
  lemma CollectedLast(ts: seq<string>)
    requires ts != [] && ParseWeekday(ts[|ts| - 1]).Some?
    requires var p := ts[..|ts| - 1]; CollectDays(p).Ok? && forall v :: v in CollectDays(p).value <==>
      exists i :: 0 <= i < |p| && ParseWeekday(p[i]) == Some(v)
    ensures CollectDays(ts).Ok? && forall v :: v in CollectDays(ts).value <==>
      exists i :: 0 <= i < |ts| && ParseWeekday(ts[i]) == Some(v)
  {
    var n := |ts| - 1;
    var p := ts[..n];
    var c := CollectDays(p);
    var v := ParseWeekday(ts[n]).value;
    assert CollectDays(ts) == Ok(c.value + {v});
    forall u ensures u in c.value + {v} <==> exists i :: 0 <= i < |ts| && ParseWeekday(ts[i]) == Some(u) {
      if u in c.value + {v} {
        if u == v {
          assert ParseWeekday(ts[n]) == Some(u);
        } else {
          var i :| 0 <= i < n && ParseWeekday(p[i]) == Some(u);
          assert ParseWeekday(ts[i]) == Some(u);
        }
      }
      if exists i :: 0 <= i < |ts| && ParseWeekday(ts[i]) == Some(u) {
        var i :| 0 <= i < |ts| && ParseWeekday(ts[i]) == Some(u);
        if i < n {
          assert ParseWeekday(p[i]) == Some(u);
        }
      }
    }
  }

  /** Once a token is rejected, nothing after it matters. */
  lemma {:induction false} CollectDaysErrSticks(p: seq<string>, q: seq<string>)
    requires CollectDays(p).Err?
    ensures CollectDays(p + q) == CollectDays(p)
  {
    if q != [] {
      var m := |q| - 1;
      CollectDaysErrSticks(p, q[..m]);
      assert (p + q)[..|p + q| - 1] == p + q[..m];
    } else {
      assert p + q == p;
    }
  }

  /** `parse_active_days(raw)`, as a value. */
  function ActiveDays(raw: string): Result<set<int>, DaysError> {
    if Lower(Strip(raw)) in {"", "all"} then Ok(ALL_DAYS)
    else
      match CollectDays(CsvTokens(raw))
      case Err(t) => Err(InvalidWeekday(t))
      case Ok(days) => if days == {} then Err(NoActiveDays) else Ok(days)
  }

  /** `parse_active_days`: collects the weekdays, stopping at the first
      token that is not an integer in 0..6. */
  method ParseActiveDays(raw: string) returns (r: Result<set<int>, DaysError>)
    ensures r == ActiveDays(raw)
  {
    if Lower(Strip(raw)) in {"", "all"} {
      return Ok(ALL_DAYS);
    }
    var tokens := CsvTokens(raw);
    var activeDays: set<int> := {};
    var i := 0;
    while i < |tokens|
      invariant 0 <= i <= |tokens|
      invariant CollectDays(tokens[..i]) == Ok(activeDays)
    {
      var token := tokens[i];
      ghost var seen := tokens[..i + 1];
      assert seen[..i] == tokens[..i] && seen[i] == token;
      var day := ParseInt(token);
      if day.None? || day.value < 0 || day.value > 6 {
        assert ParseWeekday(token).None?;
        assert CollectDays(seen) == Err(token);
        CollectDaysErrSticks(seen, tokens[i + 1..]);
        assert seen + tokens[i + 1..] == tokens;
        return Err(InvalidWeekday(token));
      }
      assert ParseWeekday(token) == day;
      assert CollectDays(seen) == Ok(activeDays + {day.value});
      activeDays := activeDays + {day.value};
      i := i + 1;
    }
    assert tokens[..i] == tokens;
    if activeDays == {} {
      return Err(NoActiveDays);
    }
    return Ok(activeDays);
  }

  /** `""` and `"all"`, in any case and with any surrounding whitespace,
      select every weekday. */
  lemma ActiveDaysAll(raw: string)
    requires Lower(Strip(raw)) == "" || Lower(Strip(raw)) == "all"
    ensures ActiveDays(raw) == Ok(ALL_DAYS)
  {
  }

  /** Outside the "all" case, success means every token names a weekday and
      the result is exactly the set of those weekdays, which is non-empty;
      failure names the first bad token, or there were no tokens at all. */
  lemma ActiveDaysSpec(raw: string)
    requires Lower(Strip(raw)) !in {"", "all"}
    ensures ActiveDays(raw).Ok? <==>
      |CsvTokens(raw)| > 0 && forall i :: 0 <= i < |CsvTokens(raw)| ==> ParseWeekday(CsvTokens(raw)[i]).Some?
    ensures ActiveDays(raw).Ok? ==> ActiveDays(raw).value != {} && ActiveDays(raw).value <= ALL_DAYS
    ensures ActiveDays(raw).Ok? ==> forall v :: v in ActiveDays(raw).value <==>
      exists i :: 0 <= i < |CsvTokens(raw)| && ParseWeekday(CsvTokens(raw)[i]) == Some(v)
    ensures ActiveDays(raw) == Err(NoActiveDays) <==> CsvTokens(raw) == []
    ensures ActiveDays(raw).Err? && ActiveDays(raw).error.InvalidWeekday? ==>
      exists k :: FirstRejected(CsvTokens(raw), k, ActiveDays(raw).error.token)
  {
    var ts := CsvTokens(raw);
    CollectDaysSpec(ts);
    CollectedDays(ts);
  }

  /** The weekdays collected from the tokens lie in 0..6, and there are some
      exactly when there are tokens. */
  lemma CollectedDays(ts: seq<string>)
    ensures CollectDays(ts).Ok? ==> CollectDays(ts).value <= ALL_DAYS
    ensures CollectDays(ts).Ok? ==> (CollectDays(ts).value == {} <==> ts == [])
  {
    var c := CollectDays(ts);
    CollectDaysSpec(ts);
    if c.Ok? {
      forall v | v in c.value ensures v in ALL_DAYS {
        var i :| 0 <= i < |ts| && ParseWeekday(ts[i]) == Some(v);
        assert 0 <= v <= 6;
      }
      if ts != [] {
        assert ParseWeekday(ts[0]).value in c.value;
      }
    }
  }

  /** The decimal numerals of a list of numbers. */
  function Numerals(ds: seq<int>): (r: seq<string>)
    requires forall i :: 0 <= i < |ds| ==> ds[i] >= 0
    ensures |r| == |ds| && forall i :: 0 <= i < |ds| ==> r[i] == Decimal(ds[i] as nat)
  {
    if ds == [] then [] else [Decimal(ds[0] as nat)] + Numerals(ds[1..])
  }

  /** The set of the elements of `ds`. */
  function Elements(ds: seq<int>): set<int> {
    if ds == [] then {} else Elements(ds[..|ds| - 1]) + {ds[|ds| - 1]}
  }

  lemma {:induction false} ElementsSpec(ds: seq<int>)
    ensures forall v :: v in Elements(ds) <==> v in ds
  {
    if ds != [] {
      var n := |ds| - 1;
      ElementsSpec(ds[..n]);
      assert ds == ds[..n] + [ds[n]];
    }
  }

  /** A sequence holding exactly the members of `s` has `s` as its elements. */
  lemma ElementsOfListing(ds: seq<int>, s: set<int>)
    requires forall v :: v in ds <==> v in s
    ensures Elements(ds) == s
  {
    ElementsSpec(ds);
    forall v ensures v in Elements(ds) <==> v in s {
      assert v in Elements(ds) <==> v in ds;
    }
  }

  /** A comma-separated list of weekday numerals, such as `"0,2,4"`, reads
      back as exactly the weekdays it lists. */
  lemma ActiveDaysOfNumerals(ds: seq<int>)
    requires ds != [] && forall i :: 0 <= i < |ds| ==> 0 <= ds[i] <= 6
    ensures ActiveDays(Join(Numerals(ds), ',')) == Ok(Elements(ds))
  {
    var ts := Numerals(ds);
    var raw := Join(ts, ',');
    assert Lower(Strip(raw)) !in {"", "all"} && CsvTokens(raw) == ts by {
      NumeralTokens(ds);
    }
    assert CollectDays(ts) == Ok(Elements(ds)) by {
      NumeralWeekdays(ds);
      CollectNamed(ts, ds);
    }
    assert ds[|ds| - 1] in Elements(ds);
  }

  /** Tokens that each name a weekday are collected into exactly those
      weekdays. */
  lemma {:induction false} CollectNamed(ts: seq<string>, ds: seq<int>)
    requires |ts| == |ds| && forall i :: 0 <= i < |ts| ==> ParseWeekday(ts[i]) == Some(ds[i])
    ensures CollectDays(ts) == Ok(Elements(ds))
  {
    if ts != [] {
      var n := |ts| - 1;
      assert forall i :: 0 <= i < n ==> ts[..n][i] == ts[i] && ds[..n][i] == ds[i];
      CollectNamed(ts[..n], ds[..n]);
    }
  }

  /** Numerals joined with commas split back into those numerals. */
  lemma NumeralTokens(ds: seq<int>)
    requires ds != [] && forall i :: 0 <= i < |ds| ==> ds[i] >= 0
    ensures Lower(Strip(Join(Numerals(ds), ','))) !in {"", "all"}
    ensures CsvTokens(Join(Numerals(ds), ',')) == Numerals(ds)
  {
    var ts := Numerals(ds);
    NumeralsAreTokens(ds);
    NumeralStart(Join(ts, ','), ts);
    CsvJoinRoundTrip(ts);
  }

  lemma NumeralsAreTokens(ds: seq<int>)
    requires forall i :: 0 <= i < |ds| ==> ds[i] >= 0
    ensures AllTokens(Numerals(ds))
  {
    var ts := Numerals(ds);
    forall i | 0 <= i < |ts| ensures ts[i] != [] && ',' !in ts[i] && Stripped(ts[i]) {
      assert ts[i] == Decimal(ds[i] as nat);
      NotSpace(ts[i][0]);
      NotSpace(ts[i][|ts[i]| - 1]);
    }
  }

  /** Each numeral of a weekday names that weekday. */
  lemma NumeralWeekdays(ds: seq<int>)
    requires forall i :: 0 <= i < |ds| ==> 0 <= ds[i] <= 6
    ensures forall i :: 0 <= i < |ds| ==> ParseWeekday(Numerals(ds)[i]) == Some(ds[i])
  {
    forall i | 0 <= i < |ds| ensures ParseWeekday(Numerals(ds)[i]) == Some(ds[i]) {
      DecimalRoundTrip(ds[i] as nat);
    }
  }

  /** A comma-separated list of numerals is stripped and is neither empty
      nor `all`. */
  lemma NumeralStart(raw: string, ts: seq<string>)
    requires ts != [] && raw == Join(ts, ',')
    requires forall i :: 0 <= i < |ts| ==> ts[i] != [] && forall j :: 0 <= j < |ts[i]| ==> IsDigit(ts[i][j])
    ensures Lower(Strip(raw)) !in {"", "all"}
  {
    JoinEnds(ts, ',');
    NotSpace(raw[0]);
    NotSpace(raw[|raw| - 1]);
    StripStripped(raw);
    assert Lower(raw)[0] == raw[0];
  }

  /** A join of non-empty pieces starts as its first piece starts and ends
      as its last piece ends. */
  lemma {:induction false} JoinEnds(parts: seq<string>, sep: char)
    requires parts != [] && forall i :: 0 <= i < |parts| ==> parts[i] != []
    ensures |Join(parts, sep)| > 0
    ensures Join(parts, sep)[0] == parts[0][0]
    ensures Join(parts, sep)[|Join(parts, sep)| - 1] == parts[|parts| - 1][|parts[|parts| - 1]| - 1]
  {
    if |parts| > 1 {
      JoinEnds(parts[1..], sep);
      var tail := Join(parts[1..], sep);
      assert Join(parts, sep) == parts[0] + [sep] + tail;
    }
  }

  /** A single numeral of a number above 6 is rejected as an invalid weekday. */
  lemma NumeralOutOfRange(n: nat)
    requires n > 6
    ensures ActiveDays(Decimal(n)) == Err(InvalidWeekday(Decimal(n)))
  {
    var t := Decimal(n);
    assert Join([t], ',') == t;
    NumeralStart(t, [t]);
    assert AllTokens([t]) by {
      assert [t][0] == t;
    }
    CsvJoinRoundTrip([t]);
    DecimalRoundTrip(n);
    assert ParseWeekday(t) == None;
    assert [t][..0] == [];
    assert CollectDays([t]) == Err(t);
  }

  /** A comma list whose every piece is whitespace has no token, hence no
      active day. */
  lemma OnlyBlankTokens(parts: seq<string>)
    requires |parts| >= 2
    requires forall k :: 0 <= k < |parts| ==> Blank(parts[k])
    ensures ActiveDays(Join(parts, ',')) == Err(NoActiveDays)
  {
    var raw := Join(parts, ',');
    NotSpace(',');
    assert forall k :: 0 <= k < |parts| ==> ',' !in parts[k];
    SplitJoin(parts, ',');
    TokensOfBlanks(parts);
    assert CsvTokens(raw) == [];
    StripFrom(parts[0], ',', Join(parts[1..], ','));
    assert Lower(Strip(raw))[0] == ',';
  }

  /** Pieces that are all whitespace give no token. */
  lemma {:induction false} TokensOfBlanks(parts: seq<string>)
    requires forall k :: 0 <= k < |parts| ==> Blank(parts[k]) && ',' !in parts[k]
    ensures Tokens(parts) == []
  {
    if parts != [] {
      BlankStrip(parts[0]);
      TokensOfBlanks(parts[1..]);
    }
  }

  lemma {:induction false} BlankStrip(s: string)
    requires forall i :: 0 <= i < |s| ==> IsSpace(s[i])
    ensures Strip(s) == []
  {
    if s != [] {
      BlankStrip(s[1..]);
    }
  }

  /** `all`, in any case, and the empty string select every weekday. */
  lemma ActiveDaysAllExamples()
    ensures ActiveDays("all") == Ok(ALL_DAYS)
    ensures ActiveDays("") == Ok(ALL_DAYS)
  {
    var all := "all";
    assert Stripped(all) by {
      NotSpace(all[0]);
      NotSpace(all[2]);
    }
    StripStripped(all);
    assert Lower(all) == all by {
      assert forall i :: 0 <= i < |all| ==> LowerChar(all[i]) == all[i];
    }
    ActiveDaysAll(all);
    assert Strip("") == "" && Lower("") == "";
  }

  // ---------------------------------------------------------------------
  // The weekly window

  type Hour = h: int | 0 <= h <= 23

  /** The decision instant, seen as its local weekday and hour. */
  datatype Instant = Instant(weekday: Day, hour: Hour)

  datatype Action = Start | Stop

  /** `resolve_action`: stop on an inactive day; equal hours mean all day;
      otherwise the window includes its start hour and excludes its end
      hour, wrapping past midnight when it ends before it starts. */
  function ResolveAction(now: Instant, startHour: int, endHour: int, activeDays: set<int>): Action {
    if now.weekday !in activeDays then Stop
    else if startHour == endHour then Start
    else
      var withinSchedule :=
        if startHour < endHour then startHour <= now.hour < endHour
        else now.hour >= startHour || now.hour < endHour;
      if withinSchedule then Start else Stop
  }

  /** With valid hours, the window is the run of `(end - start) mod 24`
      hours that begins at the start hour on the 24-hour clock (all 24 when
      the hours are equal), and it applies on active days only. */
  lemma ResolveActionCircular(now: Instant, startHour: int, endHour: int, activeDays: set<int>)
    requires 0 <= startHour <= 23 && 0 <= endHour <= 23
    ensures ResolveAction(now, startHour, endHour, activeDays) == Start <==>
      now.weekday in activeDays
      && (startHour == endHour || (now.hour - startHour) % 24 < (endHour - startHour) % 24)
  {
    var h := now.hour;
    if startHour < endHour {
      assert (endHour - startHour) % 24 == endHour - startHour;
      if h >= startHour {
        assert (h - startHour) % 24 == h - startHour;
      } else {
        assert (h - startHour) % 24 == h - startHour + 24;
      }
    } else if startHour > endHour {
      assert (endHour - startHour) % 24 == endHour - startHour + 24;
      if h >= startHour {
        assert (h - startHour) % 24 == h - startHour;
      } else {
        assert (h - startHour) % 24 == h - startHour + 24;
      }
    }
  }

  /** On an active day, swapping two different hours turns the window into
      its complement: 22 -> 6 is on exactly when 6 -> 22 is off. */
  lemma SwappedWindowIsComplement(now: Instant, startHour: int, endHour: int, activeDays: set<int>)
    requires now.weekday in activeDays && startHour != endHour
    ensures ResolveAction(now, startHour, endHour, activeDays) == Start <==>
      ResolveAction(now, endHour, startHour, activeDays) == Stop
  {
  }

  lemma ResolveActionExamples()
    ensures ResolveAction(Instant(6, 10), 8, 17, {0}) == Stop
    ensures ResolveAction(Instant(6, 23), 22, 6, ALL_DAYS) == Start
    ensures ResolveAction(Instant(6, 10), 22, 6, ALL_DAYS) == Stop
    ensures ResolveAction(Instant(0, 8), 8, 17, ALL_DAYS) == Start
    ensures ResolveAction(Instant(0, 17), 8, 17, ALL_DAYS) == Stop
  {
  }

  /** `_validate_hour`: `None` for an hour in 0..23, otherwise the usage
      error the argument parser reports. */
  function ValidateHour(value: int, flag: string): (r: Option<string>)
    ensures r == None <==> 0 <= value <= 23
    ensures r.Some? ==> r.value == flag + " must be in the range 0..23."
  {
    if !(0 <= value <= 23) then Some(flag + " must be in the range 0..23.") else None
  }

  // ---------------------------------------------------------------------
  // Forced or resolved action

  datatype ActionMode = Auto | ForceStart | ForceStop

  /** The action `main` acts on, with the active days it used: a forced mode
      bypasses the window and the weekday list; `auto` parses the weekday
      list and resolves the window. */
  function Decide(mode: ActionMode, now: Instant, startHour: int, endHour: int, rawDays: string)
    : Result<(Action, Option<set<int>>), DaysError>
  {
    match mode
    case ForceStart => Ok((Start, None))
    case ForceStop => Ok((Stop, None))
    case Auto =>
      match ActiveDays(rawDays)
      case Err(e) => Err(e)
      case Ok(days) => Ok((ResolveAction(now, startHour, endHour, days), Some(days)))
  }

  /** A forced action depends on nothing but the mode; an automatic one is
      the window's resolution on the parsed active days, carries those days,
      and fails exactly when the weekday list does. */
  lemma DecideSpec(mode: ActionMode, now: Instant, startHour: int, endHour: int, rawDays: string,
                   otherNow: Instant, otherStart: int, otherEnd: int, otherDays: string)
    ensures mode != Auto ==>
      && Decide(mode, now, startHour, endHour, rawDays) == Decide(mode, otherNow, otherStart, otherEnd, otherDays)
      && Decide(mode, now, startHour, endHour, rawDays).Ok?
      && Decide(mode, now, startHour, endHour, rawDays).value.1 == None
      && (Decide(mode, now, startHour, endHour, rawDays).value.0 == Start <==> mode == ForceStart)
    ensures mode == Auto ==>
      && (Decide(mode, now, startHour, endHour, rawDays).Ok? <==> ActiveDays(rawDays).Ok?)
      && (Decide(mode, now, startHour, endHour, rawDays).Ok? ==>
            var (action, days) := Decide(mode, now, startHour, endHour, rawDays).value;
            && days == Some(ActiveDays(rawDays).value)
            && action == ResolveAction(now, startHour, endHour, days.value)
            && (action == Start ==> now.weekday in days.value))
  {
  }

  /** The trailing-`Z` rewrite `resolve_now` applies to an explicit instant
      before parsing it: a stripped value ending in `Z` gets `+00:00`
      instead. */
  function NormalizeNow(raw: string): (r: string)
    ensures r == [] || r[|r| - 1] != 'Z'
    ensures var s := Strip(raw); (s != [] && s[|s| - 1] == 'Z') <==> r != s
    ensures var s := Strip(raw); s != [] && s[|s| - 1] == 'Z' ==>
      |r| >= 6 && r[|r| - 6..] == "+00:00" && r[..|r| - 6] + "Z" == s
    ensures var s := Strip(raw); !(s != [] && s[|s| - 1] == 'Z') ==> r == s
  {
    var s := Strip(raw);
    if |s| > 0 && s[|s| - 1] == 'Z' then s[..|s| - 1] + "+00:00" else s
  }

  // ---------------------------------------------------------------------
  // The literal cases of the tool's tests

  /** `parse_app_names(" app-a,app-b,app-a,, app-c ")` is
      `["app-a", "app-b", "app-c"]`. */
  lemma AppNamesTestCase()
    ensures AppNames(" app-a,app-b,app-a,, app-c ") == ["app-a", "app-b", "app-c"]
  {
    var a, b, c := "app-a", "app-b", "app-c";
    assert AllTokens([a, b, c]) by { TestNamesAreTokens(); }
    assert [" " + a, b, a, "", " " + c + " "] == [" app-a", "app-b", "app-a", "", " app-c "] by {
      assert " " + a == " app-a";
      assert " " + c + " " == " app-c ";
    }
    assert Join([" app-a", "app-b", "app-a", "", " app-c "], ',') == " app-a,app-b,app-a,, app-c " by {
      TestNamesInput();
    }
    AppNamesPattern(a, b, c);
  }

  lemma TestNamesAreTokens()
    ensures AllTokens(["app-a", "app-b", "app-c"])
  {
    NotSpace('a');
    NotSpace('b');
    NotSpace('c');
  }

  lemma TestNamesInput()
    ensures Join([" app-a", "app-b", "app-a", "", " app-c "], ',') == " app-a,app-b,app-a,, app-c "
  {
    JoinFive(" app-a", "app-b", "app-a", "", " app-c ", ',');
    assert " app-a,app-b,app-a,, app-c " == " app-a" + [','] + ("app-b" + [','] + ("app-a" + [','] + ("" + [','] + " app-c ")));
  }

  /** `parse_active_days("0,2,4")` is `{0, 2, 4}`. */
  lemma ActiveDaysSubsetTestCase()
    ensures ActiveDays("0,2,4") == Ok({0, 2, 4})
  {
    var ds := [0, 2, 4];
    assert Join(Numerals(ds), ',') == "0,2,4" by {
      TestDaysInput();
    }
    assert Elements(ds) == {0, 2, 4} by {
      ElementsOfThree(0, 2, 4);
    }
    ActiveDaysOfNumerals(ds);
  }

  lemma TestDaysInput()
    ensures Join(Numerals([0, 2, 4]), ',') == "0,2,4"
  {
    assert Numerals([0, 2, 4]) == ["0", "2", "4"] by {
      assert Decimal(0) == "0" && Decimal(2) == "2" && Decimal(4) == "4";
    }
    assert ["0", "2", "4"][1..] == ["2", "4"] && ["2", "4"][1..] == ["4"];
  }

  lemma ElementsOfThree(a: int, b: int, c: int)
    ensures Elements([a, b, c]) == {a, b, c}
  {
    assert [a, b, c][..2] == [a, b] && [a, b][..1] == [a] && [a][..0] == [];
    assert Elements([a]) == {a};
    assert Elements([a, b]) == {a, b};
  }

  /** `parse_active_days("7")` raises the invalid-weekday error for `7`. */
  lemma ActiveDaysRangeTestCase()
    ensures ActiveDays("7") == Err(InvalidWeekday("7"))
  {
    assert Decimal(7) == "7";
    NumeralOutOfRange(7);
  }

  /** Only blank tokens, as in `" , "`, raise the no-active-day error. */
  lemma ActiveDaysBlankTestCase()
    ensures ActiveDays(" , ") == Err(NoActiveDays)
  {
    var parts := [" ", " "];
    assert IsSpace(' ');
    assert parts[1..] == [" "];
    assert Join(parts, ',') == " , ";
    OnlyBlankTokens(parts);
  }

  /** The two messages `parse_active_days` raises, for the inputs of the
      tool's tests. */
  lemma DaysErrorMessages()
    ensures ActiveDays("7").Err? &&
      DaysErrorMessage(ActiveDays("7").error) == "Invalid weekday '7'. Expected integers in the range 0..6."
    ensures ActiveDays(" , ").Err? &&
      DaysErrorMessage(ActiveDays(" , ").error) == "At least one active day must be configured."
  {
    assert ActiveDays("7") == Err(InvalidWeekday("7")) by {
      ActiveDaysRangeTestCase();
    }
    assert ActiveDays(" , ") == Err(NoActiveDays) by {
      ActiveDaysBlankTestCase();
    }
    InvalidWeekdayMessage();
  }

  lemma InvalidWeekdayMessage()
    ensures DaysErrorMessage(InvalidWeekday("7")) == "Invalid weekday '7'. Expected integers in the range 0..6."
  {
  }
}
