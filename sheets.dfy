/**
 * The sheet names of the Excel export: one sheet per grid, named after the
 * grid, with the characters a sheet name may not hold removed, cut to 31
 * characters and made unique within the workbook with a `_<counter>` suffix.
 */
module Sheets {
  import opened Wrappers
  import opened Form

  /** The longest sheet name the export means to produce. */
  const MaxSheetName: nat := 31

  /** How much of the name the export keeps in front of a `_<counter>` suffix. */
  const SuffixedPrefix: nat := 28

  /** The characters the export removes: `[ ] * / \ ?`. */
  predicate Forbidden(c: char) {
    c == '[' || c == ']' || c == '*' || c == '/' || c == '\\' || c == '?'
  }

  /** `s.replace(/[\[\]\*\/\\\?]/g, '')`. */
  function StripForbidden(s: string): (r: string)
    ensures |r| <= |s|
  {
    if s == [] then [] else (if Forbidden(s[0]) then [] else [s[0]]) + StripForbidden(s[1..])
  }

  /** A character survives the stripping exactly when it is in `s` and allowed. */
  lemma {:induction false} StripForbiddenChars(s: string, c: char)
    ensures c in StripForbidden(s) <==> c in s && !Forbidden(c)
  {
    if s != [] {
      StripForbiddenChars(s[1..], c);
      assert s == [s[0]] + s[1..];
    }
  }

  /** A name without forbidden characters is left as it is. */
  lemma {:induction false} StripForbiddenClean(s: string)
    requires forall i :: 0 <= i < |s| ==> !Forbidden(s[i])
    ensures StripForbidden(s) == s
  {
    if s != [] {
      StripForbiddenClean(s[1..]);
      assert s == [s[0]] + s[1..];
    }
  }

  /** `s.substring(0, n)`. */
  function Truncate(s: string, n: nat): (r: string)
    ensures |r| <= n && |r| <= |s|
    ensures r == s[..|r|]
    ensures |s| <= n ==> r == s
  {
    if |s| <= n then s else s[..n]
  }

  /** The name a grid's sheet starts from: stripped, then cut to 31 characters. */
  function BaseSheetName(name: string): (r: string)
    ensures |r| <= MaxSheetName
    ensures forall c :: c in r ==> !Forbidden(c)
  {
    var stripped := StripForbidden(name);
    forall c | c in Truncate(stripped, MaxSheetName)
      ensures !Forbidden(c)
    {
      StripForbiddenChars(name, c);
    }
    Truncate(stripped, MaxSheetName)
  }

  // ----------------------------------------------------------------- counter

  function Digit(d: nat): (c: char)
    requires d < 10
    ensures '0' <= c <= '9'
  {
    (('0' as int) + d) as char
  }

  /** The decimal form of `n`, as a template literal writes it. */
  function Dec(n: nat): (r: string)
    ensures |r| >= 1
    ensures forall c :: c in r ==> '0' <= c <= '9'
  {
    if n < 10 then [Digit(n)] else Dec(n / 10) + [Digit(n % 10)]
  }

  /** Different numbers are written differently. */
  lemma {:induction false} DecInjective(a: nat, b: nat)
    requires Dec(a) == Dec(b)
    ensures a == b
  {
    if a >= 10 && b >= 10 {
      var da, db := Dec(a), Dec(b);
      assert Digit(a % 10) == da[|da| - 1] == db[|db| - 1] == Digit(b % 10);
      assert Dec(a / 10) == da[..|da| - 1] == db[..|db| - 1] == Dec(b / 10);
      DecInjective(a / 10, b / 10);
    } else if a < 10 && b < 10 {
      assert Digit(a) == Dec(a)[0] == Dec(b)[0] == Digit(b);
    }
  }

  function Pow10(d: nat): (r: nat)
    ensures r >= 1
  {
    if d == 0 then 1 else 10 * Pow10(d - 1)
  }

  /** A number below `10^d` takes at most `d` digits, and one of at least `10^d` more than `d`. */
  lemma {:induction false} DecLength(n: nat, d: nat)
    ensures 1 <= d && n < Pow10(d) ==> |Dec(n)| <= d
    ensures Pow10(d) <= n ==> |Dec(n)| > d
  {
    if n >= 10 && d >= 1 {
      DecLength(n / 10, d - 1);
    }
  }

  // --------------------------------------------------------------- candidates

  /**
   * How a colliding name is shortened in front of `_<counter>`: as written,
   * always to 28 characters; fitted, to whatever leaves room for the counter
   * within 31 characters.
   */
  datatype Policy = AsWritten | Fitted

  /** The length the stem may keep before `_<counter>`. */
  function StemLength(counter: nat, policy: Policy): nat {
    match policy
    case AsWritten => SuffixedPrefix
    case Fitted => if |Dec(counter)| < MaxSheetName then MaxSheetName - 1 - |Dec(counter)| else 0
  }

  /** `` `${sheetName.substring(0, 28)}_${counter}` `` and its fitted variant. */
  function Candidate(base: string, counter: nat, policy: Policy): string {
    Truncate(base, StemLength(counter, policy)) + "_" + Dec(counter)
  }

  /** What follows the last `_` of `s`; all of `s` when it has none. */
  function AfterLastUnderscore(s: string): string {
    if s == [] || s[|s| - 1] == '_' then [] else AfterLastUnderscore(s[..|s| - 1]) + [s[|s| - 1]]
  }

  /** The suffix of `p + "_" + d` after its last `_` is `d`, when `d` holds none. */
  lemma {:induction false} AfterLastUnderscoreOf(p: string, d: string)
    requires '_' !in d
    ensures AfterLastUnderscore(p + "_" + d) == d
    decreases |d|
  {
    var x := p + "_" + d;
    if d == [] {
      assert x[|x| - 1] == '_';
    } else {
      var init := d[..|d| - 1];
      assert x[..|x| - 1] == p + "_" + init;
      assert x[|x| - 1] == d[|d| - 1];
      AfterLastUnderscoreOf(p, init);
      assert d == init + [d[|d| - 1]];
    }
  }

  /** Two names that end in `_` and an underscore-free suffix agree on the suffix. */
  lemma SuffixAfterUnderscore(p: string, d: string, q: string, e: string)
    requires '_' !in d && '_' !in e
    requires p + "_" + d == q + "_" + e
    ensures d == e
  {
    AfterLastUnderscoreOf(p, d);
    AfterLastUnderscoreOf(q, e);
  }

  /** Different counters give different candidates, whatever the stem. */
  lemma CandidateInjective(base: string, a: nat, b: nat, policy: Policy)
    requires Candidate(base, a, policy) == Candidate(base, b, policy)
    ensures a == b
  {
    SuffixAfterUnderscore(Truncate(base, StemLength(a, policy)), Dec(a), Truncate(base, StemLength(b, policy)), Dec(b));
    DecInjective(a, b);
  }

  /** If the candidates `1 .. k-1` are all taken, there are at least `k - 1` names. */
  lemma {:induction false} Pigeonhole(base: string, policy: Policy, names: set<string>, k: nat)
    requires 1 <= k
    requires forall j :: 1 <= j < k ==> Candidate(base, j, policy) in names
    ensures k - 1 <= |names|
    decreases k
  {
    if k > 1 {
      var last := Candidate(base, k - 1, policy);
      var rest := names - {last};
      forall j | 1 <= j < k - 1
        ensures Candidate(base, j, policy) in rest
      {
        if Candidate(base, j, policy) == last {
          CandidateInjective(base, j, k - 1, policy);
        }
      }
      Pigeonhole(base, policy, rest, k - 1);
      assert names == rest + {last};
    }
  }

  /** The first counter from `k` on whose candidate is not taken, the candidates `1 .. k-1` being taken. */
  function FirstFree(base: string, policy: Policy, names: set<string>, k: nat): (n: nat)
    requires 1 <= k
    requires forall j :: 1 <= j < k ==> Candidate(base, j, policy) in names
    ensures k <= n && Candidate(base, n, policy) !in names
    ensures forall j :: 1 <= j < n ==> Candidate(base, j, policy) in names
    decreases |names| + 1 - k
  {
    if Candidate(base, k, policy) !in names then k
    else
      Pigeonhole(base, policy, names, k + 1);
      FirstFree(base, policy, names, k + 1)
  }

  function Names(existing: seq<string>): set<string> {
    set x | x in existing
  }

  lemma {:induction false} NamesSize(existing: seq<string>)
    ensures |Names(existing)| <= |existing|
  {
    if existing != [] {
      var init := existing[..|existing| - 1];
      NamesSize(init);
      assert existing == init + [existing[|existing| - 1]];
      assert Names(existing) == Names(init) + {existing[|existing| - 1]};
    }
  }

  /** The counter the export settles on for a base name already taken. */
  function Counter(base: string, existing: seq<string>, policy: Policy): (n: nat)
    ensures 1 <= n && Candidate(base, n, policy) !in existing
    ensures forall j :: 1 <= j < n ==> Candidate(base, j, policy) in existing
  {
    FirstFree(base, policy, Names(existing), 1)
  }

  /** The sheet name the export chooses for `base` when the workbook already holds `existing`. */
  function SheetName(base: string, existing: seq<string>, policy: Policy): string {
    if base !in existing then base else Candidate(base, Counter(base, existing, policy), policy)
  }

  /**
   * The chosen name is new to the workbook and free of forbidden
   * characters; it is the base name itself when that is free, and otherwise
   * the candidate with the least free counter.
   */
  lemma SheetNameChosen(name: string, existing: seq<string>, policy: Policy)
    ensures var base := BaseSheetName(name);
            var r := SheetName(base, existing, policy);
            && r !in existing
            && (forall c :: c in r ==> !Forbidden(c))
            && (base !in existing ==> r == base)
            && (base in existing ==> exists n: nat :: && 1 <= n && r == Candidate(base, n, policy)
                                                     && forall j :: 1 <= j < n ==> Candidate(base, j, policy) in existing)
  {
    var base := BaseSheetName(name);
    if base in existing {
      var n := Counter(base, existing, policy);
      var stem := Truncate(base, StemLength(n, policy));
      forall c | c in Candidate(base, n, policy)
        ensures !Forbidden(c)
      {
        assert c in stem + "_" + Dec(n);
        if c in stem {
          assert stem == base[..|stem|];
        }
      }
    }
  }

  /**
   * The name the export chooses when the fitted stem is used is at most 31
   * characters long as long as the workbook holds fewer than 10^9 sheets.
   */
  lemma FittedNameFits(name: string, existing: seq<string>)
    requires |existing| < 1_000_000_000
    ensures |SheetName(BaseSheetName(name), existing, Fitted)| <= MaxSheetName
  {
    var base := BaseSheetName(name);
    if base in existing {
      var n := Counter(base, existing, Fitted);
      Pigeonhole(base, Fitted, Names(existing), n);
      NamesSize(existing);
      assert Pow10(10) == 10_000_000_000;
      DecLength(n, 10);
    }
  }

  /** As written, the chosen name fits 31 characters while the counter stays below 100. */
  lemma AsWrittenNameFits(name: string, existing: seq<string>)
    requires BaseSheetName(name) in existing ==> Counter(BaseSheetName(name), existing, AsWritten) < 100
    ensures |SheetName(BaseSheetName(name), existing, AsWritten)| <= MaxSheetName
  {
    var base := BaseSheetName(name);
    if base in existing {
      var n := Counter(base, existing, AsWritten);
      assert Pow10(2) == 100;
      DecLength(n, 2);
    }
  }

  /**
   * As written, a name of 28 characters or more whose base and first 99
   * suffixed variants are taken gets the counter 100, and the name is 32
   * characters long.
   */
  lemma AsWrittenNameOverflows(name: string, existing: seq<string>)
    requires |BaseSheetName(name)| >= SuffixedPrefix
    requires BaseSheetName(name) in existing
    requires forall j :: 1 <= j < 100 ==> Candidate(BaseSheetName(name), j, AsWritten) in existing
    requires Candidate(BaseSheetName(name), 100, AsWritten) !in existing
    ensures |SheetName(BaseSheetName(name), existing, AsWritten)| == MaxSheetName + 1
  {
    var base := BaseSheetName(name);
    var n := Counter(base, existing, AsWritten);
    assert Pow10(2) == 100 && Pow10(3) == 1000;
    DecLength(n, 2);
    DecLength(n, 3);
  }

  /** The workbook that shows it: a 28-letter grid name, taken with its first 99 variants. */
  lemma AsWrittenOverflowExample()
    ensures var name := seq(28, i => 'g');
            var existing := [name] + seq(99, i requires 0 <= i < 99 => Candidate(name, i + 1, AsWritten));
            |SheetName(BaseSheetName(name), existing, AsWritten)| == 32
  {
    var name := seq(28, i => 'g');
    var existing := [name] + seq(99, i requires 0 <= i < 99 => Candidate(name, i + 1, AsWritten));
    StripForbiddenClean(name);
    assert BaseSheetName(name) == name;
    assert name in existing;
    forall j | 1 <= j < 100
      ensures Candidate(name, j, AsWritten) in existing
    {
      assert existing[j] == Candidate(name, j, AsWritten);
    }
    forall k | 0 <= k < |existing|
      ensures existing[k] != Candidate(name, 100, AsWritten)
    {
      if k == 0 {
        assert |existing[k]| == 28;
        assert |Candidate(name, 100, AsWritten)| > 28;
      } else if existing[k] == Candidate(name, 100, AsWritten) {
        CandidateInjective(name, k, 100, AsWritten);
      }
    }
    AsWrittenNameOverflows(name, existing);
  }

  // ---------------------------------------------------------------- workbook

  /**
   * Naming the sheet of a grid called `name` in a workbook holding
   * `existing`; `None` when the grid has no name, where the export throws.
   */
  method UniqueSheetName(name: Option<string>, existing: seq<string>, policy: Policy) returns (sheetName: Option<string>)
    ensures name.None? ==> sheetName.None?
    ensures name.Some? ==> sheetName == Some(SheetName(BaseSheetName(name.value), existing, policy))
  {
    if name.None? {
      return None;
    }
    var base := StripForbidden(name.value);
    if |base| > MaxSheetName {
      base := base[..MaxSheetName];
    }
    assert base == BaseSheetName(name.value);
    if base !in existing {
      return Some(base);
    }
    var counter := 1;
    while Candidate(base, counter, policy) in existing
      invariant 1 <= counter <= |Names(existing)| + 1
      invariant forall j :: 1 <= j < counter ==> Candidate(base, j, policy) in existing
      decreases |Names(existing)| + 1 - counter
    {
      Pigeonhole(base, policy, Names(existing), counter + 1);
      counter := counter + 1;
    }
    assert counter == Counter(base, existing, policy);
    return Some(Candidate(base, counter, policy));
  }

  /** The sheets the export has before the grids: `WNFI` when the form has start-up actions. */
  function InitialSheets(form: FormModel): seq<string> {
    if |form.whenNewFormInstance| > 0 then ["WNFI"] else []
  }

  /** The workbook's sheet names after naming the sheets of grids called `names`, in order. */
  function SheetsAfter(initial: seq<string>, names: seq<Option<string>>, policy: Policy): Option<seq<string>> {
    if names == [] then Some(initial)
    else
      match SheetsAfter(initial, names[..|names| - 1], policy)
      case None => None
      case Some(wb) =>
        match names[|names| - 1]
        case None => None
        case Some(name) => Some(wb + [SheetName(BaseSheetName(name), wb, policy)])
  }

  predicate Distinct(s: seq<string>) {
    forall i, j :: 0 <= i < j < |s| ==> s[i] != s[j]
  }

  /**
   * Naming fails exactly when some grid has no name; otherwise the workbook
   * gains one sheet per grid, and distinct sheet names stay distinct.
   */
  lemma {:induction false} SheetsAfterDistinct(initial: seq<string>, names: seq<Option<string>>, policy: Policy)
    ensures SheetsAfter(initial, names, policy).None? <==> exists i :: 0 <= i < |names| && names[i].None?
    ensures SheetsAfter(initial, names, policy).Some? ==>
              && |SheetsAfter(initial, names, policy).value| == |initial| + |names|
              && SheetsAfter(initial, names, policy).value[..|initial|] == initial
              && (Distinct(initial) ==> Distinct(SheetsAfter(initial, names, policy).value))
  {
    if names != [] {
      var init := names[..|names| - 1];
      SheetsAfterDistinct(initial, init, policy);
      assert forall i :: 0 <= i < |init| ==> init[i] == names[i];
      match SheetsAfter(initial, init, policy)
      case None =>
        var i :| 0 <= i < |init| && init[i].None?;
        assert names[i].None?;
      case Some(wb) =>
        if names[|names| - 1].Some? {
          var name := names[|names| - 1].value;
          var r := SheetName(BaseSheetName(name), wb, policy);
          SheetNameChosen(name, wb, policy);
          var after := wb + [r];
          assert after[..|initial|] == wb[..|initial|];
          if Distinct(initial) {
            forall i, j | 0 <= i < j < |after|
              ensures after[i] != after[j]
            {
              if j == |wb| {
                assert after[i] == wb[i];
              }
            }
          }
        }
    }
  }

  /** The export's loop over the grids, naming each sheet and appending it to the workbook. */
  method NameSheets(initial: seq<string>, names: seq<Option<string>>, policy: Policy) returns (sheets: Option<seq<string>>)
    ensures sheets == SheetsAfter(initial, names, policy)
  {
    var wb := initial;
    var i := 0;
    while i < |names|
      invariant 0 <= i <= |names|
      invariant SheetsAfter(initial, names[..i], policy) == Some(wb)
    {
      assert names[..i + 1][..i] == names[..i];
      var sheetName := UniqueSheetName(names[i], wb, policy);
      if sheetName.None? {
        assert SheetsAfter(initial, names[..i + 1], policy).None?;
        SheetsAfterDistinct(initial, names[..i + 1], policy);
        var k :| 0 <= k < i + 1 && names[..i + 1][k].None?;
        SheetsAfterDistinct(initial, names, policy);
        assert names[k].None?;
        return None;
      }
      wb := wb + [sheetName.value];
      i := i + 1;
    }
    assert names[..i] == names;
    return Some(wb);
  }

  /** The grid names of the form, in the order of its grids. */
  function GridNamesOf(form: FormModel): (r: seq<Option<string>>)
    ensures |r| == |form.grids|
  {
    seq(|form.grids|, i requires 0 <= i < |form.grids| => form.grids[i].name)
  }

  /**
   * The export's sheet names for `form`: `None` when a grid has no name,
   * otherwise one distinct name per grid after the `WNFI` sheet, if any.
   */
  lemma ExportSheets(form: FormModel, policy: Policy)
    ensures var sheets := SheetsAfter(InitialSheets(form), GridNamesOf(form), policy);
            && (sheets.None? <==> exists i :: 0 <= i < |form.grids| && form.grids[i].name.None?)
            && (sheets.Some? ==> |sheets.value| == |InitialSheets(form)| + |form.grids| && Distinct(sheets.value))
  {
    var names := GridNamesOf(form);
    SheetsAfterDistinct(InitialSheets(form), names, policy);
    if exists i :: 0 <= i < |form.grids| && form.grids[i].name.None? {
      var i :| 0 <= i < |form.grids| && form.grids[i].name.None?;
      assert names[i].None?;
    }
  }
}
