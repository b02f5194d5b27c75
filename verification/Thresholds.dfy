/** Threshold CSVs: what the recommender prints, how it and the runner read it back, and their lookups
    (scripts/recommend_budgets.js, ci.go). */
module Thresholds {
  import opened Text
  import opened Durations
  import opened GoDurations

  datatype Thresholds = Thresholds(groups: map<string, real>, defaultThreshold: Option<real>)

  // ---------- the recommender's reader ----------

  const NO_THRESHOLDS := Thresholds(map[], None)

  function AddItem(acc: Thresholds, item: string): Result<Thresholds> {
    var parts := Split(item, '=');
    if |parts| != 2 then Err(item)
    else
      var key := Lower(Trim(parts[0], JsSpace));
      var dur := ParseMs(Trim(parts[1], JsSpace));
      if key == "" || dur == None then Err(item)
      else if key == "default" then Ok(acc.(defaultThreshold := dur))
      else Ok(acc.(groups := acc.groups[key := dur.value]))
  }

  function AddItems(acc: Thresholds, items: seq<string>): Result<Thresholds>
    decreases |items|
  {
    if items == [] then Ok(acc)
    else
      match AddItem(acc, items[0])
      case Err(e) => Err(e)
      case Ok(next) => AddItems(next, items[1..])
  }

  function ParseCsv(raw: string): Result<Thresholds> {
    var text := Trim(raw, JsSpace);
    if text == "" then Ok(NO_THRESHOLDS) else AddItems(NO_THRESHOLDS, SplitList(text, JsSpace))
  }

  /** parseThresholdCsv; an Err is the exception it throws. */
  method ParseThresholdCsv(raw: string) returns (r: Result<Thresholds>)
    ensures r == ParseCsv(raw)
  {
    hide AddItem, SplitList, Trim;
    var text := Trim(raw, JsSpace);
    if text == "" {
      return Ok(NO_THRESHOLDS);
    }
    var items := SplitList(text, JsSpace);
    var out := NO_THRESHOLDS;
    for i := 0 to |items|
      invariant AddItems(out, items[i..]) == AddItems(NO_THRESHOLDS, items)
    {
      assert items[i..][1..] == items[i + 1..];
      var next := AddItem(out, items[i]);
      if next.Err? {
        return Err(next.complaint);
      }
      out := next.value;
    }
    return Ok(out);
  }

  /** currentGroupThreshold. */
  function CurrentGroupThreshold(group: string, current: Thresholds): Option<real> {
    var key := Lower(group);
    if key in current.groups then Some(current.groups[key]) else current.defaultThreshold
  }

  // ---------- the runner's reader ----------

  datatype GoThresholds = GoThresholds(groups: map<string, int>, defaultThreshold: int)

  function GoAddItem(acc: GoThresholds, item: string): Result<GoThresholds> {
    match CutAt(item, '=')
    case None => Err(item)
    case Some((left, right)) =>
      var key := Lower(Trim(left, GoSpace));
      var dur := ParseDurationFlag(right);
      if key == "" || dur == None then Err(item)
      else if key == "default" then Ok(acc.(defaultThreshold := dur.value))
      else Ok(acc.(groups := acc.groups[key := dur.value]))
  }

  function GoAddItems(acc: GoThresholds, items: seq<string>): Result<GoThresholds>
    decreases |items|
  {
    if items == [] then Ok(acc)
    else
      match GoAddItem(acc, items[0])
      case Err(e) => Err(e)
      case Ok(next) => GoAddItems(next, items[1..])
  }

  function GoParseCsv(raw: string): Result<GoThresholds> {
    if Trim(raw, GoSpace) == "" then Ok(GoThresholds(map[], 0))
    else GoAddItems(GoThresholds(map[], 0), SplitList(raw, GoSpace))
  }

  /** parseGroupThresholds; an Err is the error it returns. */
  method ParseGroupThresholds(raw: string) returns (r: Result<GoThresholds>)
    ensures r == GoParseCsv(raw)
  {
    hide GoAddItem, SplitList, Trim;
    var thresholds := GoThresholds(map[], 0);
    if Trim(raw, GoSpace) == "" {
      return Ok(thresholds);
    }
    var items := SplitList(raw, GoSpace);
    for i := 0 to |items|
      invariant GoAddItems(thresholds, items[i..]) == GoAddItems(GoThresholds(map[], 0), items)
    {
      assert items[i..][1..] == items[i + 1..];
      var next := GoAddItem(thresholds, items[i]);
      if next.Err? {
        return Err(next.complaint);
      }
      thresholds := next.value;
    }
    return Ok(thresholds);
  }

  /** selectGroupThreshold. */
  function SelectGroupThreshold(group: string, t: GoThresholds): int {
    var key := Lower(Trim(group, GoSpace));
    if key in t.groups then t.groups[key] else t.defaultThreshold
  }

  // ---------- the printer ----------

  /** A group name that can be a CSV key: what the reader can give back. */
  predicate CsvKey(k: string) {
    k != "" && Trimmed(k, JsSpace) && IsLower(k) && ',' !in k && '=' !in k && k != "default"
  }

  /** Some order of the keys of a map, each once: the result of orderedGroupEntries, whatever the collation. */
  predicate Lists(keys: seq<string>, groups: map<string, real>) {
    && (forall k <- keys :: k in groups)
    && (forall g <- groups :: g in keys)
    && forall i, j :: 0 <= i < j < |keys| ==> keys[i] != keys[j]
  }

  function Items(keys: seq<string>, groups: map<string, real>): seq<string>
    requires forall k <- keys :: k in groups
  {
    if keys == [] then [] else [keys[0] + "=" + FormatDuration(groups[keys[0]])] + Items(keys[1..], groups)
  }

  predicate Positive(d: Option<real>) {
    d.Some? && d.value > 0.0
  }

  function CsvItems(keys: seq<string>, t: Thresholds): seq<string>
    requires forall k <- keys :: k in t.groups
  {
    Items(keys, t.groups)
    + if Positive(t.defaultThreshold) then ["default=" + FormatDuration(t.defaultThreshold.value)] else []
  }

  /** The CSV of main: ordered entries, then the default when it is positive. */
  function Csv(keys: seq<string>, t: Thresholds): string
    requires forall k <- keys :: k in t.groups
  {
    Join(CsvItems(keys, t), ',')
  }

  lemma {:induction false} ItemsAre(keys: seq<string>, groups: map<string, real>)
    requires forall k <- keys :: k in groups
    ensures |Items(keys, groups)| == |keys|
    ensures forall i :: 0 <= i < |keys| ==> Items(keys, groups)[i] == keys[i] + "=" + FormatDuration(groups[keys[i]])
  {
    hide FormatDuration;
    if keys == [] {
    } else {
      ItemsAre(keys[1..], groups);
    }
  }

  /** The CSV's items: every entry in the order given, and at the end the default if it is positive. */
  lemma PrintedItems(keys: seq<string>, t: Thresholds)
    requires forall k <- keys :: k in t.groups
    ensures var items := CsvItems(keys, t);
      && |items| == |keys| + (if t.defaultThreshold.Some? && t.defaultThreshold.value > 0.0 then 1 else 0)
      && (forall i :: 0 <= i < |keys| ==> items[i] == keys[i] + "=" + FormatDuration(t.groups[keys[i]]))
      && (|items| > |keys| ==> items[|keys|] == "default=" + FormatDuration(t.defaultThreshold.value))
  {
    hide FormatDuration;
    ItemsAre(keys, t.groups);
  }

  /** What a printed duration reads as. */
  function ReadBack(ms: real): (r: real)
    ensures r >= 0.0
  {
    if ms > 0.0 then WholeSecond(ms) else 0.0
  }

  /** What a printed CSV stands for: every threshold in whole seconds. */
  function Adopted(t: Thresholds): Thresholds {
    Thresholds(map g | g in t.groups :: ReadBack(t.groups[g]),
               if Positive(t.defaultThreshold) then Some(ReadBack(t.defaultThreshold.value)) else None)
  }

  // ---------- printing then parsing ----------

  lemma FormattedFacts(ms: real)
    ensures var s := FormatDuration(ms);
      && s != "" && Trim(s, JsSpace) == s && ',' !in s && '=' !in s
      && !Cuts(JsSpace, s[|s| - 1]) && !Cuts(GoSpace, s[|s| - 1])
      && ParseMs(s) == Some(ReadBack(ms))
  {
    hide Lower, Trim, FormatDuration, ParseMs;
    FormattedIsClean(ms);
    var s := FormatDuration(ms);
    assert s[0] in s && s[|s| - 1] in s;
    assert IsFormatChar(s[0]) && IsFormatChar(s[|s| - 1]);
    TrimTrimmed(s, JsSpace);
    ParseFormatted(ms);
  }

  /** A printed item is a clean list piece for both readers. */
  lemma ItemFacts(key: string, ms: real, cut: Cutset)
    requires cut == JsSpace || cut == GoSpace
    requires key != "" && Trimmed(key, cut) && ',' !in key
    ensures var item := key + "=" + FormatDuration(ms);
      item != "" && Trimmed(item, cut) && ',' !in item
  {
    hide FormatDuration;
    FormattedFacts(ms);
  }

  lemma AddPrinted(acc: Thresholds, key: string, ms: real)
    requires key != "" && Trimmed(key, JsSpace) && IsLower(key) && '=' !in key
    ensures AddItem(acc, key + "=" + FormatDuration(ms))
         == Ok(if key == "default" then acc.(defaultThreshold := Some(ReadBack(ms)))
               else acc.(groups := acc.groups[key := ReadBack(ms)]))
  {
    hide Lower, Trim, FormatDuration, ParseMs, ReadBack;
    FormattedFacts(ms);
    var s := FormatDuration(ms);
    SplitAt(key, s, '=');
    SplitNone(s, '=');
    assert key + "=" + s == key + ['='] + s;
    assert Split(key + "=" + s, '=') == [key, s];
    TrimTrimmed(key, JsSpace);
    LowerLower(key);
  }

  function ReadAll(keys: seq<string>, groups: map<string, real>): map<string, real>
    requires forall k <- keys :: k in groups
  {
    map k | k in keys :: ReadBack(groups[k])
  }

  lemma ReadAllSplit(base: map<string, real>, keys: seq<string>, groups: map<string, real>)
    requires keys != [] && forall k <- keys :: k in groups
    ensures forall k <- keys[1..] :: k in groups
    ensures base[keys[0] := ReadBack(groups[keys[0]])] + ReadAll(keys[1..], groups) == base + ReadAll(keys, groups)
  {
    hide ReadBack;
    assert keys == [keys[0]] + keys[1..];
    assert keys[0] in keys && forall k <- keys[1..] :: k in keys;
  }

  lemma NothingRead(base: map<string, real>, groups: map<string, real>)
    ensures base + ReadAll([], groups) == base
  {
  }

  lemma {:induction false} AddPrintedItems(
    acc: Thresholds, keys: seq<string>, groups: map<string, real>, tail: seq<string>)
    requires forall k <- keys :: k in groups && CsvKey(k)
    ensures AddItems(acc, Items(keys, groups) + tail)
         == AddItems(acc.(groups := acc.groups + ReadAll(keys, groups)), tail)
    decreases |keys|
  {
    hide AddItem, FormatDuration, ReadBack, ReadAll;
    if keys == [] {
      assert Items(keys, groups) + tail == tail;
      NothingRead(acc.groups, groups);
    } else {
      var k := keys[0];
      assert k in keys && forall x <- keys[1..] :: x in keys;
      AddPrinted(acc, k, groups[k]);
      var next := acc.(groups := acc.groups[k := ReadBack(groups[k])]);
      AddPrintedItems(next, keys[1..], groups, tail);
      assert (Items(keys, groups) + tail)[1..] == Items(keys[1..], groups) + tail;
      ReadAllSplit(acc.groups, keys, groups);
    }
  }

  lemma {:induction false} ItemsClean(keys: seq<string>, groups: map<string, real>, cut: Cutset)
    requires cut == JsSpace || cut == GoSpace
    requires forall k <- keys :: k in groups && k != "" && Trimmed(k, cut) && ',' !in k
    ensures forall p <- Items(keys, groups) :: p != "" && Trimmed(p, cut) && ',' !in p
  {
    hide FormatDuration;
    if keys == [] {
    } else {
      assert keys[0] in keys;
      ItemFacts(keys[0], groups[keys[0]], cut);
      ItemsClean(keys[1..], groups, cut);
    }
  }

  lemma CsvItemsClean(keys: seq<string>, t: Thresholds, cut: Cutset)
    requires cut == JsSpace || cut == GoSpace
    requires forall k <- keys :: k in t.groups && k != "" && Trimmed(k, cut) && ',' !in k
    ensures forall p <- CsvItems(keys, t) :: p != "" && Trimmed(p, cut) && ',' !in p
  {
    hide FormatDuration;
    ItemsClean(keys, t.groups, cut);
    if Positive(t.defaultThreshold) {
      ItemFacts("default", t.defaultThreshold.value, cut);
    }
  }

  lemma AllRead(keys: seq<string>, t: Thresholds)
    requires Lists(keys, t.groups)
    ensures NO_THRESHOLDS.groups + ReadAll(keys, t.groups) == Adopted(t).groups
  {
    hide ReadBack;
  }

  lemma AddAll(keys: seq<string>, t: Thresholds)
    requires Lists(keys, t.groups) && forall g <- t.groups :: CsvKey(g)
    ensures AddItems(NO_THRESHOLDS, CsvItems(keys, t)) == Ok(Adopted(t))
  {
    hide AddItem, FormatDuration, ReadBack, Items, CsvKey;
    var tail := if Positive(t.defaultThreshold) then ["default=" + FormatDuration(t.defaultThreshold.value)] else [];
    assert CsvItems(keys, t) == Items(keys, t.groups) + tail;
    AddPrintedItems(NO_THRESHOLDS, keys, t.groups, tail);
    AllRead(keys, t);
    if Positive(t.defaultThreshold) {
      AddPrinted(Thresholds(Adopted(t).groups, None), "default", t.defaultThreshold.value);
      assert "default" + "=" + FormatDuration(t.defaultThreshold.value) == tail[0];
      assert tail[1..] == [];
    }
  }

  /** Reading a printed CSV gives back every threshold in whole seconds, in whatever order
      the entries were printed. */
  lemma ParsePrintedCsv(keys: seq<string>, t: Thresholds)
    requires Lists(keys, t.groups) && forall g <- t.groups :: CsvKey(g)
    ensures ParseCsv(Csv(keys, t)) == Ok(Adopted(t))
  {
    hide AddItem, FormatDuration, ReadBack, Trim, AddItems, SplitList;
    var items := CsvItems(keys, t);
    if items == [] {
      TrimTrimmed("", JsSpace);
    } else {
      CsvItemsClean(keys, t, JsSpace);
      SplitListJoin(items, JsSpace);
      TrimTrimmed(Csv(keys, t), JsSpace);
      AddAll(keys, t);
    }
  }

  // ---------- what is refused ----------

  lemma JoinTwo(a: string, b: string)
    ensures Join([a, b], '=') == a + "=" + b
  {
    assert [a, b][1..] == [b];
  }

  /** The recommender takes an item exactly if it has one equals sign, a key before it and a duration behind it. */
  lemma TakenItem(acc: Thresholds, item: string)
    ensures AddItem(acc, item).Ok? <==>
      exists left, right :: item == left + "=" + right && '=' !in left && '=' !in right
        && Trim(left, JsSpace) != "" && ParseMs(Trim(right, JsSpace)).Some?
  {
    hide Trim, ParseMs, Split, Join;
    var parts := Split(item, '=');
    if |parts| == 2 {
      JoinSplit(item, '=');
      JoinTwo(parts[0], parts[1]);
      LowerAt(Trim(parts[0], JsSpace));
      assert parts == [parts[0], parts[1]];
      assert item == parts[0] + "=" + parts[1] && '=' !in parts[0] && '=' !in parts[1];
    }
    forall left, right | item == left + "=" + right && '=' !in left && '=' !in right
      ensures parts == [left, right]
    {
      SplitAt(left, right, '=');
      SplitNone(right, '=');
      assert item == left + ['='] + right;
    }
  }

  /** The runner takes it exactly if there is a key before the first equals sign and a flag's duration behind it. */
  lemma GoTakenItem(acc: GoThresholds, item: string)
    ensures GoAddItem(acc, item).Ok? <==>
      exists left, right :: item == left + "=" + right && '=' !in left
        && Trim(left, GoSpace) != "" && ParseDurationFlag(right).Some?
  {
    hide Trim, ParseDurationFlag;
    CutAtMeans(item, '=');
    if CutAt(item, '=').Some? {
      var (left, right) := CutAt(item, '=').value;
      LowerAt(Trim(left, GoSpace));
      assert item == left + "=" + right;
    }
    forall left, right | item == left + "=" + right && '=' !in left
      ensures CutAt(item, '=') == Some((left, right))
    {
      CutAtFirst(left, right, '=');
      assert item == left + ['='] + right;
    }
  }

  // ---------- both readers agree ----------

  /** A group name whose ends Go does not trim either. */
  predicate GoKey(k: string) {
    CsvKey(k) && Trimmed(k, GoSpace)
  }

  function Nanoseconds(ms: real): nat {
    PrintedSeconds(ms) * 1_000_000_000
  }

  predicate Fits(ms: real) {
    Nanoseconds(ms) <= MAX_DURATION
  }

  /** Every duration the CSV prints fits Go's 63 bits of nanoseconds. */
  predicate AllFit(keys: seq<string>, t: Thresholds)
    requires forall k <- keys :: k in t.groups
  {
    (forall k <- keys :: Fits(t.groups[k])) && (Positive(t.defaultThreshold) ==> Fits(t.defaultThreshold.value))
  }

  lemma SameDuration(ms: real)
    ensures Nanoseconds(ms) as real == 1_000_000.0 * ReadBack(ms)
  {
    var n := PrintedSeconds(ms);
    assert ReadBack(ms) == 1000.0 * n as real;
  }

  lemma GoAddPrinted(acc: GoThresholds, key: string, ms: real)
    requires key != "" && Trimmed(key, GoSpace) && IsLower(key) && '=' !in key
    ensures var item := key + "=" + FormatDuration(ms);
      GoAddItem(acc, item) == if !Fits(ms) then Err(item)
                              else if key == "default" then Ok(acc.(defaultThreshold := Nanoseconds(ms)))
                              else Ok(acc.(groups := acc.groups[key := Nanoseconds(ms)]))
  {
    hide Lower, Trim, FormatDuration, ParseDurationFlag, PrintedSeconds;
    var s := FormatDuration(ms);
    CutAtFirst(key, s, '=');
    assert key + "=" + s == key + ['='] + s;
    TrimTrimmed(key, GoSpace);
    LowerLower(key);
    ParseFormattedInGo(ms);
  }

  function NanosAll(keys: seq<string>, groups: map<string, real>): map<string, int>
    requires forall k <- keys :: k in groups
  {
    map k | k in keys :: Nanoseconds(groups[k])
  }

  lemma NanosAllSplit(base: map<string, int>, keys: seq<string>, groups: map<string, real>)
    requires keys != [] && forall k <- keys :: k in groups
    ensures forall k <- keys[1..] :: k in groups
    ensures base[keys[0] := Nanoseconds(groups[keys[0]])] + NanosAll(keys[1..], groups) == base + NanosAll(keys, groups)
  {
    hide Nanoseconds;
    assert keys == [keys[0]] + keys[1..];
    assert keys[0] in keys && forall k <- keys[1..] :: k in keys;
  }

  lemma GoAddKey(acc: GoThresholds, key: string, ms: real)
    requires GoKey(key)
    ensures var item := key + "=" + FormatDuration(ms);
      GoAddItem(acc, item) == if !Fits(ms) then Err(item) else Ok(acc.(groups := acc.groups[key := Nanoseconds(ms)]))
  {
    hide GoAddItem, FormatDuration, Nanoseconds, Fits;
    GoAddPrinted(acc, key, ms);
  }

  lemma NoNanos(base: map<string, int>, groups: map<string, real>)
    ensures base + NanosAll([], groups) == base
  {
  }

  lemma {:induction false} GoAddPrintedItems(
    acc: GoThresholds, keys: seq<string>, groups: map<string, real>, tail: seq<string>)
    requires forall k <- keys :: k in groups && GoKey(k)
    ensures if forall k <- keys :: Fits(groups[k])
      then GoAddItems(acc, Items(keys, groups) + tail)
           == GoAddItems(acc.(groups := acc.groups + NanosAll(keys, groups)), tail)
      else GoAddItems(acc, Items(keys, groups) + tail).Err?
    decreases |keys|
  {
    hide GoAddItem, FormatDuration, Nanoseconds, NanosAll, Fits, GoKey;
    if keys == [] {
      assert Items(keys, groups) + tail == tail;
      NoNanos(acc.groups, groups);
    } else {
      var k := keys[0];
      assert k in keys && forall x <- keys :: x == k || x in keys[1..];
      assert forall x <- keys[1..] :: x in keys;
      GoAddKey(acc, k, groups[k]);
      assert (Items(keys, groups) + tail)[1..] == Items(keys[1..], groups) + tail;
      if Fits(groups[k]) {
        var next := acc.(groups := acc.groups[k := Nanoseconds(groups[k])]);
        GoAddPrintedItems(next, keys[1..], groups, tail);
        NanosAllSplit(acc.groups, keys, groups);
      }
    }
  }

  /** The Go form of the adopted thresholds; an absent default is zero there. */
  function GoAdopted(t: Thresholds): GoThresholds {
    GoThresholds(map g | g in t.groups :: Nanoseconds(t.groups[g]),
                 if Positive(t.defaultThreshold) then Nanoseconds(t.defaultThreshold.value) else 0)
  }

  lemma AllNanos(keys: seq<string>, t: Thresholds)
    requires Lists(keys, t.groups)
    ensures map[] + NanosAll(keys, t.groups) == GoAdopted(t).groups
  {
    hide Nanoseconds;
  }

  lemma GoAddAll(keys: seq<string>, t: Thresholds)
    requires Lists(keys, t.groups) && forall g <- t.groups :: GoKey(g)
    ensures var r := GoAddItems(GoThresholds(map[], 0), CsvItems(keys, t));
      if AllFit(keys, t) then r == Ok(GoAdopted(t)) else r.Err?
  {
    hide GoAddItem, FormatDuration, Nanoseconds, Items, CsvKey, NanosAll, Fits;
    var none := GoThresholds(map[], 0);
    var tail := if Positive(t.defaultThreshold) then ["default=" + FormatDuration(t.defaultThreshold.value)] else [];
    assert CsvItems(keys, t) == Items(keys, t.groups) + tail;
    GoAddPrintedItems(none, keys, t.groups, tail);
    AllNanos(keys, t);
    if Positive(t.defaultThreshold) {
      GoAddPrinted(GoThresholds(GoAdopted(t).groups, 0), "default", t.defaultThreshold.value);
      assert "default" + "=" + FormatDuration(t.defaultThreshold.value) == tail[0];
      assert tail[1..] == [];
    }
  }

  /** When Go trims no key further, the runner accepts a printed CSV exactly when every printed duration fits
      63 bits of nanoseconds, and then reads the same thresholds as the recommender. */
  lemma GoParsePrintedCsv(keys: seq<string>, t: Thresholds)
    requires Lists(keys, t.groups) && forall g <- t.groups :: GoKey(g)
    ensures var r := GoParseCsv(Csv(keys, t));
      if AllFit(keys, t) then r == Ok(GoAdopted(t)) else r.Err?
  {
    hide GoAddItem, FormatDuration, Nanoseconds, Fits, Trim, GoAddItems, SplitList;
    var items := CsvItems(keys, t);
    if items == [] {
      TrimTrimmed("", GoSpace);
      assert Items(keys, t.groups) == [] && keys == [];
      assert GoAdopted(t) == GoThresholds(map[], 0);
    } else {
      CsvItemsClean(keys, t, GoSpace);
      SplitListJoin(items, GoSpace);
      TrimTrimmed(Csv(keys, t), GoSpace);
      GoAddAll(keys, t);
    }
  }

  /** Go trims none of the names further: white space that only it knows, U+0085, does not surround them. */
  predicate GoTrimmed(names: set<string>) {
    forall g <- names :: Trimmed(g, GoSpace)
  }

  /** Every key the runner reads is trimmed. */
  lemma GoAddsTrimmed(acc: GoThresholds, item: string)
    requires GoTrimmed(acc.groups.Keys) && GoAddItem(acc, item).Ok?
    ensures GoTrimmed(GoAddItem(acc, item).value.groups.Keys)
  {
    hide Trim, Lower, ParseDurationFlag;
    var left := CutAt(item, '=').value.0;
    TrimFacts(left, GoSpace);
    LowerFacts(Trim(left, GoSpace), GoSpace);
  }

  lemma {:induction false} GoReadsTrimmed(acc: GoThresholds, items: seq<string>)
    requires GoTrimmed(acc.groups.Keys) && GoAddItems(acc, items).Ok?
    ensures GoTrimmed(GoAddItems(acc, items).value.groups.Keys)
    decreases |items|
  {
    hide GoAddItem;
    if items == [] {
    } else {
      GoAddsTrimmed(acc, items[0]);
      GoReadsTrimmed(GoAddItem(acc, items[0]).value, items[1..]);
    }
  }

  /** Of everything the recommender prints, the runner reads the same thresholds exactly when every printed duration
      fits 63 bits of nanoseconds and Go trims no key further. */
  lemma GoReadsTheSame(keys: seq<string>, t: Thresholds)
    requires Lists(keys, t.groups) && forall g <- t.groups :: CsvKey(g)
    ensures GoParseCsv(Csv(keys, t)) == Ok(GoAdopted(t)) <==> AllFit(keys, t) && GoTrimmed(t.groups.Keys)
  {
    hide GoAddItems, SplitList, Trim, Csv, Nanoseconds, Fits, Trimmed;
    var csv := Csv(keys, t);
    if GoParseCsv(csv) == Ok(GoAdopted(t)) {
      if Trim(csv, GoSpace) != "" {
        GoReadsTrimmed(GoThresholds(map[], 0), SplitList(csv, GoSpace));
      }
      assert GoTrimmed(GoAdopted(t).groups.Keys);
      forall g | g in t.groups
        ensures Trimmed(g, GoSpace)
      {
        assert g in GoAdopted(t).groups;
      }
    }
    if GoTrimmed(t.groups.Keys) {
      GoParsePrintedCsv(keys, t);
    }
  }

  /** Such a key exists: JavaScript's trim leaves U+0085 alone, Go's does not. */
  lemma NextLineKeyDiffers()
    ensures var t := Thresholds(map["\U{85}" := 60_000.0], None);
      && CsvKey("\U{85}") && AllFit(["\U{85}"], t)
      && ParseCsv(Csv(["\U{85}"], t)) == Ok(Adopted(t))
      && GoParseCsv(Csv(["\U{85}"], t)) != Ok(GoAdopted(t))
  {
    hide ParseCsv, GoParseCsv, Csv, FormatDuration;
    var key := "\U{85}";
    var t := Thresholds(map[key := 60_000.0], None);
    assert key in t.groups && !Trimmed(key, GoSpace);
    ParsePrintedCsv([key], t);
    GoReadsTheSame([key], t);
    assert Fits(60_000.0) by {
      assert 60_000.0 / 1000.0 == 60.0;
    }
  }

  predicate SameThreshold(go: int, js: Option<real>) {
    go as real == 1_000_000.0 * (if js.Some? then js.value else 0.0)
  }

  function DefaultOf(t: Thresholds): real {
    if t.defaultThreshold.Some? then t.defaultThreshold.value else 0.0
  }

  /** For every CSV that both programs read alike, and every text as a name, the two lookups as functions give the
      same duration exactly when the name has no white space for Go to trim, or trimming it finds no group, or one
      whose threshold equals the default. */
  lemma LookupsAgree(keys: seq<string>, t: Thresholds, name: string)
    requires Lists(keys, t.groups) && (forall g <- t.groups :: CsvKey(g)) && AllFit(keys, t) && GoTrimmed(t.groups.Keys)
    ensures var csv := Csv(keys, t);
      var key := Lower(Trim(name, GoSpace));
      && ParseCsv(csv).Ok? && GoParseCsv(csv).Ok?
      && (SameThreshold(SelectGroupThreshold(name, GoParseCsv(csv).value),
                        CurrentGroupThreshold(name, ParseCsv(csv).value))
          <==> Trimmed(name, GoSpace) || key !in t.groups
               || ReadBack(t.groups[key]) == DefaultOf(Adopted(t)))
  {
    hide FormatDuration, Nanoseconds, Fits, Trim, ParseCsv, GoParseCsv, CsvItems, ReadBack, Lower;
    ParsePrintedCsv(keys, t);
    GoReadsTheSame(keys, t);
    var key := Lower(Trim(name, GoSpace));
    LowerFacts(name, GoSpace);
    if Trimmed(name, GoSpace) {
      TrimTrimmed(name, GoSpace);
    }
    if key in t.groups {
      SameDuration(t.groups[key]);
    }
    if Positive(t.defaultThreshold) {
      SameDuration(t.defaultThreshold.value);
    }
  }

  lemma LongTrim()
    ensures Trim(" config", GoSpace) == "config"
  {
    assert " config"[1..] == "config";
  }

  /** As functions the lookups do differ, on a name that neither program looks up: with config=1m and default=30s,
      the runner's finds " config", the recommender's does not. */
  lemma UntrimmedNameDiffers()
    ensures var t := Thresholds(map["config" := 60_000.0], Some(30_000.0));
      && GoKey("config") && AllFit(["config"], t)
      && !SameThreshold(SelectGroupThreshold(" config", GoAdopted(t)), CurrentGroupThreshold(" config", Adopted(t)))
  {
    hide Lower, Trim, Nanoseconds;
    var t := Thresholds(map["config" := 60_000.0], Some(30_000.0));
    LongTrim();
    LowerLower("config");
    LowerAt(" config");
    SameDuration(60_000.0);
    SameDuration(30_000.0);
    assert ReadBack(60_000.0) == 60_000.0 && ReadBack(30_000.0) == 30_000.0 by {
      assert 60_000.0 / 1000.0 == 60.0 && 30_000.0 / 1000.0 == 30.0;
    }
    assert |Lower(" config")| != |"config"|;
  }

  /** And the runner does reject a printed CSV: a budget of 10^13 ms (317 years) exceeds its nanoseconds. */
  lemma LongBudgetRejected()
    ensures var t := Thresholds(map["config" := 10_000_000_000_000.0], None);
      ParseCsv(Csv(["config"], t)).Ok? && GoParseCsv(Csv(["config"], t)).Err?
  {
    hide ParseCsv, GoParseCsv, Csv, FormatDuration;
    var t := Thresholds(map["config" := 10_000_000_000_000.0], None);
    ParsePrintedCsv(["config"], t);
    GoParsePrintedCsv(["config"], t);
    assert "config" in ["config"] && !Fits(t.groups["config"]) by {
      assert 10_000_000_000_000.0 / 1000.0 == 10_000_000_000.0;
    }
  }
}
