/**
 * The analytics screen: the overall accuracy of the sessions selected by the location
 * spinner, and the per-location bar chart, which always covers every session.
 */
module Analytics {
  import opened Wrappers
  import opened Stats

  function CorrectOf(s: StudySession): int { s.correctCount }
  function IncorrectOf(s: StudySession): int { s.incorrectCount }
  function CardsOf(s: StudySession): int { s.correctCount + s.incorrectCount }

  /** `sessions.sumOf { f(it) }`. */
  function Sum(sessions: seq<StudySession>, f: StudySession -> int): (total: int)
    ensures (forall k :: 0 <= k < |sessions| ==> f(sessions[k]) >= 0) ==> total >= 0
  {
    if sessions == [] then 0
    else Sum(sessions[..|sessions| - 1], f) + f(sessions[|sessions| - 1])
  }

  /** Sums add up over concatenation. */
  lemma {:induction false} SumAppend(a: seq<StudySession>, b: seq<StudySession>, f: StudySession -> int)
    ensures Sum(a + b, f) == Sum(a, f) + Sum(b, f)
    decreases |b|
  {
    if b == [] {
      assert a + b == a;
    } else {
      assert (a + b)[..|a + b| - 1] == a + b[..|b| - 1];
      SumAppend(a, b[..|b| - 1], f);
    }
  }

  /** Counting correct plus incorrect per session is counting each kind and adding up. */
  lemma {:induction false} CardsAreCorrectPlusIncorrect(sessions: seq<StudySession>)
    ensures Sum(sessions, CardsOf) == Sum(sessions, CorrectOf) + Sum(sessions, IncorrectOf)
  {
    if sessions != [] {
      CardsAreCorrectPlusIncorrect(sessions[..|sessions| - 1]);
    }
  }

  /** No session carries a negative count. */
  predicate CountsNonNegative(sessions: seq<StudySession>) {
    forall k :: 0 <= k < |sessions| ==> sessions[k].correctCount >= 0 && sessions[k].incorrectCount >= 0
  }

  /** What `setupOverallProgress` shows: both totals, the percentage and the bar value. */
  datatype Overall = Overall(totalCorrect: int, totalIncorrect: int, percentage: real, progress: int)

  function OverallOf(sessions: seq<StudySession>): (o: Overall)
    ensures o.totalCorrect == Sum(sessions, CorrectOf) && o.totalIncorrect == Sum(sessions, IncorrectOf)
    ensures o.percentage == Percentage(o.totalCorrect, o.totalCorrect + o.totalIncorrect)
    ensures o.progress == TruncateToInt(o.percentage)
  {
    var c := Sum(sessions, CorrectOf);
    var i := Sum(sessions, IncorrectOf);
    var p := Percentage(c, c + i);
    Overall(c, i, p, TruncateToInt(p))
  }

  /** With no negative counts the overall percentage and the bar both lie in [0, 100]. */
  lemma OverallBounds(sessions: seq<StudySession>)
    requires CountsNonNegative(sessions)
    ensures 0.0 <= OverallOf(sessions).percentage <= 100.0
    ensures 0 <= OverallOf(sessions).progress <= 100
  {
    SumsNonNegative(sessions);
    PercentageBounds(Sum(sessions, CorrectOf), Sum(sessions, IncorrectOf));
    TruncatedPercentageBounds(Sum(sessions, CorrectOf), Sum(sessions, IncorrectOf));
  }

  /** The sessions held at location `name`, in order: `filter { it.locationName == name }`. */
  function AtLocation(sessions: seq<StudySession>, name: string): (r: seq<StudySession>)
    ensures |r| <= |sessions|
    ensures forall k :: 0 <= k < |r| ==> r[k].locationName == name && r[k] in sessions
  {
    if sessions == [] then []
    else
      var last := sessions[|sessions| - 1];
      AtLocation(sessions[..|sessions| - 1], name) + (if last.locationName == name then [last] else [])
  }

  /** The filter keeps exactly the sessions held at `name`. */
  lemma {:induction false} AtLocationMembers(sessions: seq<StudySession>, name: string, x: StudySession)
    ensures x in AtLocation(sessions, name) <==> x in sessions && x.locationName == name
  {
    if sessions != [] {
      var init := sessions[..|sessions| - 1];
      AtLocationMembers(init, name, x);
      assert sessions == init + [sessions[|sessions| - 1]];
    }
  }

  /** The spinner entries: "Todos os Locais", then the names of the saved locations. */
  function SpinnerNames(savedLocations: seq<string>): (names: seq<string>)
    ensures |names| == |savedLocations| + 1 && names[0] == "Todos os Locais"
    ensures forall k :: 0 <= k < |savedLocations| ==> names[k + 1] == savedLocations[k]
  {
    ["Todos os Locais"] + savedLocations
  }

  /** `onItemSelected`: position 0 selects all sessions, any other the sessions of that name. */
  function SelectedSessions(sessions: seq<StudySession>, names: seq<string>, position: int): (r: seq<StudySession>)
    requires 0 <= position < |names|
  {
    if position == 0 then sessions else AtLocation(sessions, names[position])
  }

  /**
   * The filter of the spinner: the first entry keeps every session; entry k + 1 keeps
   * exactly the sessions held at the k-th saved location, in their order.
   */
  lemma SelectionFilters(sessions: seq<StudySession>, savedLocations: seq<string>, position: int, x: StudySession)
    requires 0 <= position <= |savedLocations|
    ensures position == 0 ==> SelectedSessions(sessions, SpinnerNames(savedLocations), position) == sessions
    ensures position > 0 ==>
      (x in SelectedSessions(sessions, SpinnerNames(savedLocations), position) <==>
        x in sessions && x.locationName == savedLocations[position - 1])
  {
    if position > 0 {
      AtLocationMembers(sessions, savedLocations[position - 1], x);
    }
  }

  /** The location names in order of first occurrence: the keys of `groupBy { it.locationName }`. */
  function GroupKeys(sessions: seq<StudySession>): (keys: seq<string>)
    ensures forall i, j :: 0 <= i < j < |keys| ==> keys[i] != keys[j]
    ensures forall k :: 0 <= k < |sessions| ==> sessions[k].locationName in keys
  {
    if sessions == [] then []
    else
      var init := sessions[..|sessions| - 1];
      var last := sessions[|sessions| - 1];
      var keys := GroupKeys(init);
      assert forall k :: 0 <= k < |init| ==> sessions[k] == init[k];
      if last.locationName in keys then keys else keys + [last.locationName]
  }

  /** Every key names the location of some session: no group is empty. */
  lemma {:induction false} GroupKeysOccur(sessions: seq<StudySession>, n: string)
    requires n in GroupKeys(sessions)
    ensures exists k :: 0 <= k < |sessions| && sessions[k].locationName == n
  {
    var init := sessions[..|sessions| - 1];
    var last := sessions[|sessions| - 1];
    if n in GroupKeys(init) {
      GroupKeysOccur(init, n);
      var k :| 0 <= k < |init| && init[k].locationName == n;
      assert sessions[k] == init[k];
    } else {
      assert n == last.locationName;
    }
  }

  /** Where location `n` first occurs in `sessions`, or `|sessions|` when it does not. */
  function FirstIndex(sessions: seq<StudySession>, n: string): (r: nat)
    ensures r <= |sessions|
    ensures r < |sessions| ==> sessions[r].locationName == n
    ensures forall k :: 0 <= k < r ==> sessions[k].locationName != n
  {
    if sessions == [] then 0
    else if sessions[0].locationName == n then 0
    else 1 + FirstIndex(sessions[1..], n)
  }

  /** One more session leaves earlier first occurrences where they were. */
  lemma FirstIndexSnoc(init: seq<StudySession>, x: StudySession, n: string)
    ensures FirstIndex(init, n) < |init| ==> FirstIndex(init + [x], n) == FirstIndex(init, n)
    ensures FirstIndex(init, n) == |init| && x.locationName == n ==> FirstIndex(init + [x], n) == |init|
  {
    var s := init + [x];
    var r, r0 := FirstIndex(s, n), FirstIndex(init, n);
    if r0 < |init| {
      assert s[r0] == init[r0];
    } else if x.locationName == n {
      assert s[|init|] == x;
    }
  }

  /**
   * `groupBy` keeps its keys in a LinkedHashMap, so the bars come in order of each
   * location's first session.
   */
  lemma {:induction false} GroupKeysInFirstOccurrenceOrder(sessions: seq<StudySession>)
    ensures forall a, b :: 0 <= a < b < |GroupKeys(sessions)| ==>
      FirstIndex(sessions, GroupKeys(sessions)[a]) < FirstIndex(sessions, GroupKeys(sessions)[b])
  {
    KeysOrderedInduction(sessions);
  }

  /** The keys come in the order of their first occurrence in `sessions`. */
  ghost predicate KeysOrdered(sessions: seq<StudySession>, keys: seq<string>) {
    forall a, b :: 0 <= a < b < |keys| ==> FirstIndex(sessions, keys[a]) < FirstIndex(sessions, keys[b])
  }

  /** Every key occurs in `sessions`. */
  ghost predicate KeysOccur(sessions: seq<StudySession>, keys: seq<string>) {
    forall k :: 0 <= k < |keys| ==> FirstIndex(sessions, keys[k]) < |sessions|
  }

  lemma {:induction false} KeysOrderedInduction(sessions: seq<StudySession>)
    ensures KeysOrdered(sessions, GroupKeys(sessions)) && KeysOccur(sessions, GroupKeys(sessions))
  {
    if sessions != [] {
      var init := sessions[..|sessions| - 1];
      var last := sessions[|sessions| - 1];
      assert sessions == init + [last];
      var keys := GroupKeys(init);
      KeysOrderedInduction(init);
      OrderKept(init, last, keys);
      if last.locationName !in keys {
        NewKeyComesLast(init, last, keys);
      }
    }
  }

  /** One more session keeps the order of keys that already occur. */
  lemma OrderKept(init: seq<StudySession>, x: StudySession, keys: seq<string>)
    requires KeysOrdered(init, keys) && KeysOccur(init, keys)
    ensures KeysOrdered(init + [x], keys) && KeysOccur(init + [x], keys)
    ensures forall k :: 0 <= k < |keys| ==> FirstIndex(init + [x], keys[k]) < |init|
  {
    forall k | 0 <= k < |keys|
      ensures FirstIndex(init + [x], keys[k]) == FirstIndex(init, keys[k]) < |init|
    {
      FirstIndexSnoc(init, x, keys[k]);
    }
  }

  /** A location no earlier session has is first met at the new session, after every key. */
  lemma NewKeyComesLast(init: seq<StudySession>, x: StudySession, keys: seq<string>)
    requires KeysOrdered(init + [x], keys)
    requires forall k :: 0 <= k < |keys| ==> FirstIndex(init + [x], keys[k]) < |init|
    requires forall k :: 0 <= k < |init| ==> init[k].locationName != x.locationName
    ensures KeysOrdered(init + [x], keys + [x.locationName]) && KeysOccur(init + [x], keys + [x.locationName])
  {
    var n := x.locationName;
    assert FirstIndex(init, n) == |init|;
    FirstIndexSnoc(init, x, n);
    AppendLast(init + [x], keys, n);
  }

  /** A key met after every other key may be appended. */
  lemma AppendLast(s: seq<StudySession>, keys: seq<string>, n: string)
    requires KeysOrdered(s, keys) && KeysOccur(s, keys) && FirstIndex(s, n) < |s|
    requires forall k :: 0 <= k < |keys| ==> FirstIndex(s, keys[k]) < FirstIndex(s, n)
    ensures KeysOrdered(s, keys + [n]) && KeysOccur(s, keys + [n])
  {
    var ks := keys + [n];
    forall a, b | 0 <= a < b < |ks| ensures FirstIndex(s, ks[a]) < FirstIndex(s, ks[b]) {
      assert ks[a] == keys[a];
      if b < |keys| {
        assert ks[b] == keys[b];
      }
    }
    forall k | 0 <= k < |ks| ensures FirstIndex(s, ks[k]) < |s| {
      if k < |keys| {
        assert ks[k] == keys[k];
      }
    }
  }

  /** The per-location percentage of `mapValues`: correct over correct + incorrect of the group. */
  function GroupPercentage(sessions: seq<StudySession>, name: string): real {
    var g := AtLocation(sessions, name);
    Percentage(Sum(g, CorrectOf), Sum(g, CardsOf))
  }

  /** A group's percentage is its correct count over its correct plus incorrect counts. */
  lemma GroupPercentageOfCounts(sessions: seq<StudySession>, name: string)
    ensures var g := AtLocation(sessions, name);
      GroupPercentage(sessions, name) == Percentage(Sum(g, CorrectOf), Sum(g, CorrectOf) + Sum(g, IncorrectOf))
  {
    CardsAreCorrectPlusIncorrect(AtLocation(sessions, name));
  }

  /** The x-axis label of a group: its name, or "Geral" for sessions without a location. */
  function Label(name: string): (l: string)
    ensures name != "" ==> l == name
    ensures name == "" ==> l == "Geral"
  {
    if name != "" then name else "Geral"
  }

  /** A bar: its index on the x axis and its height. */
  datatype BarEntry = BarEntry(x: int, y: real)

  /** The bars of the chart, one per location in first-occurrence order. */
  function ChartEntries(sessions: seq<StudySession>): (es: seq<BarEntry>)
    ensures |es| == |GroupKeys(sessions)|
    ensures forall j :: 0 <= j < |es| ==> es[j] == BarEntry(j, GroupPercentage(sessions, GroupKeys(sessions)[j]))
  {
    var keys := GroupKeys(sessions);
    seq(|keys|, j requires 0 <= j < |keys| => BarEntry(j, GroupPercentage(sessions, keys[j])))
  }

  /** The labels of the chart, one per bar. */
  function ChartLabels(sessions: seq<StudySession>): (ls: seq<string>)
    ensures |ls| == |GroupKeys(sessions)|
    ensures forall j :: 0 <= j < |ls| ==> ls[j] == Label(GroupKeys(sessions)[j])
  {
    var keys := GroupKeys(sessions);
    seq(|keys|, j requires 0 <= j < |keys| => Label(keys[j]))
  }

  /** The `forEachIndexed` loop of `setupLocationsChart`: one bar and one label per location. */
  method BuildChart(sessions: seq<StudySession>) returns (entries: seq<BarEntry>, labels: seq<string>)
    ensures entries == ChartEntries(sessions) && labels == ChartLabels(sessions)
  {
    var keys := GroupKeys(sessions);
    entries, labels := [], [];
    var index := 0;
    while index < |keys|
      invariant 0 <= index <= |keys|
      invariant BarsUpTo(sessions, keys, entries, labels, index)
    {
      var key := keys[index];
      BarsStep(sessions, keys, entries, labels, index);
      entries := entries + [BarEntry(index, GroupPercentage(sessions, key))];
      labels := labels + [Label(key)];
      index := index + 1;
    }
    ChartComplete(sessions, entries, labels);
  }

  /** The first `n` bars and labels are those of the first `n` keys. */
  ghost predicate BarsUpTo(sessions: seq<StudySession>, keys: seq<string>, entries: seq<BarEntry>, labels: seq<string>, n: nat)
    requires n <= |keys|
  {
    && |entries| == n && |labels| == n
    && (forall j :: 0 <= j < n ==> entries[j] == BarEntry(j, GroupPercentage(sessions, keys[j])))
    && (forall j :: 0 <= j < n ==> labels[j] == Label(keys[j]))
  }

  lemma BarsStep(sessions: seq<StudySession>, keys: seq<string>, entries: seq<BarEntry>, labels: seq<string>, n: nat)
    requires n < |keys| && BarsUpTo(sessions, keys, entries, labels, n)
    ensures BarsUpTo(sessions, keys, entries + [BarEntry(n, GroupPercentage(sessions, keys[n]))], labels + [Label(keys[n])], n + 1)
  {
  }

  /** Bars and labels that agree with the chart at every index are the chart. */
  lemma ChartComplete(sessions: seq<StudySession>, entries: seq<BarEntry>, labels: seq<string>)
    requires BarsUpTo(sessions, GroupKeys(sessions), entries, labels, |GroupKeys(sessions)|)
    ensures entries == ChartEntries(sessions) && labels == ChartLabels(sessions)
  {
  }

  /** With no negative counts every bar lies in [0, 100]. */
  lemma ChartBounds(sessions: seq<StudySession>, j: nat)
    requires CountsNonNegative(sessions)
    requires j < |ChartEntries(sessions)|
    ensures 0.0 <= ChartEntries(sessions)[j].y <= 100.0
  {
    GroupBounds(sessions, GroupKeys(sessions)[j]);
  }

  /** With no negative counts a group's percentage lies in [0, 100]. */
  lemma GroupBounds(sessions: seq<StudySession>, name: string)
    requires CountsNonNegative(sessions)
    ensures 0.0 <= GroupPercentage(sessions, name) <= 100.0
  {
    var g := AtLocation(sessions, name);
    FilterNonNegative(sessions, name);
    SumsNonNegative(g);
    GroupPercentageOfCounts(sessions, name);
    PercentageBounds(Sum(g, CorrectOf), Sum(g, IncorrectOf));
  }

  /** A filter keeps the counts non-negative. */
  lemma FilterNonNegative(sessions: seq<StudySession>, name: string)
    requires CountsNonNegative(sessions)
    ensures CountsNonNegative(AtLocation(sessions, name))
  {
    var g := AtLocation(sessions, name);
    forall k | 0 <= k < |g| ensures g[k].correctCount >= 0 && g[k].incorrectCount >= 0 {
      assert g[k] in sessions;
    }
  }

  /** Non-negative counts sum to non-negative totals. */
  lemma SumsNonNegative(sessions: seq<StudySession>)
    requires CountsNonNegative(sessions)
    ensures Sum(sessions, CorrectOf) >= 0 && Sum(sessions, IncorrectOf) >= 0
  {
    assert forall k :: 0 <= k < |sessions| ==> CorrectOf(sessions[k]) >= 0;
    assert forall k :: 0 <= k < |sessions| ==> IncorrectOf(sessions[k]) >= 0;
  }

  /** `f` summed group by group over the keys `keys`. */
  function SumGroups(sessions: seq<StudySession>, keys: seq<string>, f: StudySession -> int): int {
    if keys == [] then 0
    else SumGroups(sessions, keys[..|keys| - 1], f) + Sum(AtLocation(sessions, keys[|keys| - 1]), f)
  }

  /** One more session adds its value to the one group (if any) that holds its location. */
  lemma {:induction false} SumGroupsStep(s: seq<StudySession>, x: StudySession, keys: seq<string>, f: StudySession -> int)
    requires forall i, j :: 0 <= i < j < |keys| ==> keys[i] != keys[j]
    ensures SumGroups(s + [x], keys, f) == SumGroups(s, keys, f) + (if x.locationName in keys then f(x) else 0)
  {
    if keys != [] {
      var init := keys[..|keys| - 1];
      var k := keys[|keys| - 1];
      DistinctSnoc(keys, x.locationName);
      SumGroupsStep(s, x, init, f);
      SumAtLocationSnoc(s, x, k, f);
    }
  }

  /**
   * Without repeated keys, the keys before the last have none repeated either, the last
   * is not among them, and a name is a key iff it is the last or one of them.
   */
  lemma DistinctSnoc(keys: seq<string>, n: string)
    requires keys != [] && forall i, j :: 0 <= i < j < |keys| ==> keys[i] != keys[j]
    ensures var init := keys[..|keys| - 1];
      && (forall i, j :: 0 <= i < j < |init| ==> init[i] != init[j])
      && keys[|keys| - 1] !in init
      && (n in keys <==> n in init || n == keys[|keys| - 1])
  {
    var init := keys[..|keys| - 1];
    assert keys == init + [keys[|keys| - 1]];
    forall i | 0 <= i < |init| ensures init[i] != keys[|keys| - 1] {
      assert init[i] == keys[i];
    }
  }

  /** One more session adds its value to the group of `name` exactly when it is held there. */
  lemma SumAtLocationSnoc(s: seq<StudySession>, x: StudySession, name: string, f: StudySession -> int)
    ensures Sum(AtLocation(s + [x], name), f) == Sum(AtLocation(s, name), f) + (if x.locationName == name then f(x) else 0)
  {
    assert (s + [x])[..|s + [x]| - 1] == s;
    var tail := if x.locationName == name then [x] else [];
    assert AtLocation(s + [x], name) == AtLocation(s, name) + tail;
    SumAppend(AtLocation(s, name), tail, f);
    assert Sum([x], f) == Sum([], f) + f(x);
  }

  /**
   * The chart's groups partition the sessions: summed over the groups, the correct (or
   * incorrect) counts give the overall totals, so each session is counted in exactly one
   * bar.
   */
  lemma {:induction false} GroupsPartition(sessions: seq<StudySession>, f: StudySession -> int)
    ensures SumGroups(sessions, GroupKeys(sessions), f) == Sum(sessions, f)
  {
    if sessions != [] {
      var init := sessions[..|sessions| - 1];
      var x := sessions[|sessions| - 1];
      assert sessions == init + [x];
      GroupsPartition(init, f);
      SumGroupsStep(init, x, GroupKeys(init), f);
      if x.locationName !in GroupKeys(init) {
        NewGroup(init, x, GroupKeys(init), f);
      }
    }
  }

  /** A session whose location no earlier session has opens a group of its own. */
  lemma NewGroup(init: seq<StudySession>, x: StudySession, keys: seq<string>, f: StudySession -> int)
    requires forall k :: 0 <= k < |init| ==> init[k].locationName in keys
    requires x.locationName !in keys
    ensures SumGroups(init + [x], keys + [x.locationName], f) == SumGroups(init + [x], keys, f) + f(x)
  {
    NoneAtLocation(init, x.locationName);
    assert (init + [x])[..|init + [x]| - 1] == init;
    assert AtLocation(init + [x], x.locationName) == [x];
    assert Sum([x], f) == Sum([], f) + f(x);
    assert (keys + [x.locationName])[..|keys|] == keys;
  }

  /** No session is kept for a location none of them has. */
  lemma NoneAtLocation(sessions: seq<StudySession>, name: string)
    requires forall k :: 0 <= k < |sessions| ==> sessions[k].locationName != name
    ensures AtLocation(sessions, name) == []
  {
    if AtLocation(sessions, name) != [] {
      var y := AtLocation(sessions, name)[0];
      AtLocationMembers(sessions, name, y);
    }
  }

  /**
   * The analytics screen: the sessions and locations loaded for the signed-in user, the
   * spinner entries, and what the overall bar and the chart currently show.
   */
  class AnalyticsActivity {
    var allUserSessions: seq<StudySession>
    /** The names of the saved locations (the only field of a location the screen uses). */
    var savedLocations: seq<string>
    var spinnerNames: seq<string>
    var overall: Overall
    var chartEntries: seq<BarEntry>
    var chartLabels: seq<string>

    constructor()
      ensures allUserSessions == [] && savedLocations == [] && spinnerNames == []
      ensures overall == OverallOf([]) && chartEntries == [] && chartLabels == []
    {
      allUserSessions, savedLocations, spinnerNames := [], [], [];
      overall := OverallOf([]);
      chartEntries, chartLabels := [], [];
    }

    /**
     * `processAndDisplayAnalytics`: the overall bar from the given sessions, the chart from
     * all sessions of the user.
     */
    method ProcessAndDisplayAnalytics(sessions: seq<StudySession>)
      modifies this
      ensures overall == OverallOf(sessions)
      ensures chartEntries == ChartEntries(allUserSessions) && chartLabels == ChartLabels(allUserSessions)
      ensures allUserSessions == old(allUserSessions) && savedLocations == old(savedLocations)
      ensures spinnerNames == old(spinnerNames)
    {
      overall := OverallOf(sessions);
      chartEntries, chartLabels := BuildChart(allUserSessions);
    }

    /**
     * `loadInitialData`: with a signed-in user and both queries answered, store the
     * locations and sessions, fill the spinner and show everything; otherwise nothing
     * changes.
     */
    method LoadInitialData(signedIn: bool, loaded: Option<(seq<string>, seq<StudySession>)>)
      modifies this
      ensures !signedIn || loaded.None? ==> unchanged(this)
      ensures signedIn && loaded.Some? ==>
        && savedLocations == loaded.value.0 && allUserSessions == loaded.value.1
        && spinnerNames == SpinnerNames(loaded.value.0)
        && overall == OverallOf(allUserSessions)
        && chartEntries == ChartEntries(allUserSessions) && chartLabels == ChartLabels(allUserSessions)
    {
      if signedIn && loaded.Some? {
        savedLocations := loaded.value.0;
        allUserSessions := loaded.value.1;
        spinnerNames := SpinnerNames(savedLocations);
        ProcessAndDisplayAnalytics(allUserSessions);
      }
    }

    /**
     * `onItemSelected(position)`: the overall bar follows the selection, the chart keeps
     * showing every session.
     */
    method OnItemSelected(position: int)
      requires 0 <= position < |spinnerNames|
      modifies this
      ensures allUserSessions == old(allUserSessions) && savedLocations == old(savedLocations)
      ensures spinnerNames == old(spinnerNames)
      ensures overall == OverallOf(SelectedSessions(allUserSessions, spinnerNames, position))
      ensures chartEntries == ChartEntries(allUserSessions) && chartLabels == ChartLabels(allUserSessions)
    {
      var filtered := SelectedSessions(allUserSessions, spinnerNames, position);
      ProcessAndDisplayAnalytics(filtered);
    }
  }
}
