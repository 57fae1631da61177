/**
 Topic choice and its 90-day history in pipeline/scripts/rank_news.py.

 `Ranker.Run` is one day: filter the items against the history, pick from the ranking, write
 the history back.  Dates are day numbers; what identifies a topic are two key functions, one of
 its title and one of its URL.
 */
module TopicHistory {
  import opened Options

  const HISTORY_DAYS := 90

  datatype Item = Item(title: string, url: string)

  /** A history entry; `Malformed` is anything but a dictionary, `None` a date that does not parse. */
  datatype Entry = Malformed | Entry(date: Option<int>, title: string, url: string)

  /** A ranking entry; `None` is an index that is missing or no number. */
  datatype Ranked = NotDict | Dict(index: Option<int>)

  datatype Keying = Keying(titleKey: string -> string, urlKey: string -> string) {
    /** `topic_keys` */
    function Of(title: string, url: string): set<string> {
      ((if title != "" then {titleKey(title)} else {}) + (if url != "" then {urlKey(url)} else {})) - {""}
    }
  }

  function Keys(k: Keying, item: Item): set<string> {
    k.Of(item.title, item.url)
  }

  function EntryKeys(k: Keying, e: Entry): set<string> {
    if e.Entry? then k.Of(e.title, e.url) else {}
  }

  predicate Meet(a: set<string>, b: set<string>) {
    a * b != {}
  }

  // ---------- The window ----------

  function Cutoff(today: int): int {
    today - (HISTORY_DAYS - 1)
  }

  predicate Kept(e: Entry, today: int) {
    e.Entry? && e.date.Some? && e.date.value >= Cutoff(today)
  }

  /** Today's own entries block nothing. */
  predicate InWindow(e: Entry, today: int) {
    Kept(e, today) && e.date.value != today
  }

  function RecentKeys(k: Keying, history: seq<Entry>, today: int): (recent: set<string>)
    ensures forall x :: x in recent <==>
              exists i :: 0 <= i < |history| && InWindow(history[i], today) && x in EntryKeys(k, history[i])
  {
    if history == [] then {}
    else
      var earlier, e := history[..|history| - 1], history[|history| - 1];
      var before := RecentKeys(k, earlier, today);
      if InWindow(e, today) then before + EntryKeys(k, e) else before
  }

  function RecentTitles(history: seq<Entry>, today: int): seq<string> {
    if history == [] then []
    else
      var e := history[|history| - 1];
      var before := RecentTitles(history[..|history| - 1], today);
      if InWindow(e, today) && e.title != "" then before + [e.title] else before
  }

  /** An entry of the last 90 days, but not of today, that has a title. */
  predicate HasRecentTitle(e: Entry, today: int) {
    e.Entry? && e.date.Some? && e.date.value != today && today - e.date.value < 90 && e.title != ""
  }

  /** The titles are, in order, those of exactly such entries among the first `n`. */
  ghost predicate TitlesSit(history: seq<Entry>, n: nat, today: int, titles: seq<string>, at: seq<nat>) {
    && n <= |history| && |titles| == |at|
    && (forall p, q :: 0 <= p < q < |at| ==> at[p] < at[q])
    && (forall p :: 0 <= p < |at| ==>
          at[p] < n && HasRecentTitle(history[at[p]], today) && titles[p] == history[at[p]].title)
    && forall i :: 0 <= i < n && HasRecentTitle(history[i], today) ==> i in at
  }

  lemma {:induction false} TitlesSitNext(history: seq<Entry>, n: nat, today: int, titles: seq<string>, at: seq<nat>)
    requires n < |history| && TitlesSit(history, n, today, titles, at)
    ensures if HasRecentTitle(history[n], today)
            then TitlesSit(history, n + 1, today, titles + [history[n].title], at + [n]) == true
            else TitlesSit(history, n + 1, today, titles, at) == true
  {
  }

  lemma {:induction false} OneMoreTitle(history: seq<Entry>, n: nat, today: int)
    requires n < |history|
    ensures var before, after := RecentTitles(history[..n], today), RecentTitles(history[..n + 1], today);
            after == if HasRecentTitle(history[n], today) then before + [history[n].title] else before
  {
    assert history[..n + 1][..n] == history[..n];
  }

  lemma {:induction false} TitlesOf(history: seq<Entry>, n: nat, today: int) returns (at: seq<nat>)
    requires n <= |history|
    ensures TitlesSit(history, n, today, RecentTitles(history[..n], today), at) == true
  {
    if n == 0 {
      at := [];
    } else {
      at := TitlesOf(history, n - 1, today);
      TitlesSitNext(history, n - 1, today, RecentTitles(history[..n - 1], today), at);
      OneMoreTitle(history, n - 1, today);
      if HasRecentTitle(history[n - 1], today) {
        at := at + [n - 1];
      }
    }
  }

  method RecentTopicKeys(k: Keying, history: seq<Entry>, today: int)
    returns (recent: set<string>, titles: seq<string>)
    ensures recent == RecentKeys(k, history, today) && titles == RecentTitles(history, today)
    ensures exists at :: TitlesSit(history, |history|, today, titles, at)
  {
    ghost var at := TitlesOf(history, |history|, today);
    assert history[..|history|] == history;
    recent, titles := {}, [];
    for i := 0 to |history|
      invariant recent == RecentKeys(k, history[..i], today) && titles == RecentTitles(history[..i], today)
    {
      assert history[..i + 1][..i] == history[..i];
      var h := history[i];
      if h.Malformed? {
        continue;
      }
      if h.date.Some? && h.date.value != today && h.date.value >= Cutoff(today) {
        recent := recent + k.Of(h.title, h.url);
        if h.title != "" {
          titles := titles + [h.title];
        }
      }
    }
    assert history[..|history|] == history;
  }

  predicate Blocked(k: Keying, item: Item, history: seq<Entry>, today: int) {
    Meet(Keys(k, item), RecentKeys(k, history, today))
  }

  function FreshItemIndices(k: Keying, items: seq<Item>, history: seq<Entry>, today: int): (unblocked: seq<nat>)
    ensures forall i :: i in unblocked <==> 0 <= i < |items| && !Blocked(k, items[i], history, today)
    ensures forall i :: 0 <= i < |unblocked| ==> unblocked[i] < |items|
    ensures forall i, j :: 0 <= i < j < |unblocked| ==> unblocked[i] < unblocked[j]
  {
    if items == [] then []
    else
      var last := |items| - 1;
      var before := FreshItemIndices(k, items[..last], history, today);
      if Blocked(k, items[last], history, today) then before else before + [last]
  }

  // ---------- Picking ----------

  function EntryIndex(e: Ranked, count: nat): Option<nat> {
    if e.Dict? && e.index.Some? && 0 <= e.index.value < count then Some(e.index.value) else None
  }

  datatype Outcome =
    | Picked(position: nat, index: nat)
    | EmptyRanking | AllInvalid | AllBlocked  // the three messages of `pick_topic`
    | NothingFresh                            // said before the ranking is asked for
    | HistoryBroken                           // an entry that is no dictionary

  predicate Invalid(items: seq<Item>, ranking: seq<Ranked>, r: nat)
    requires r < |ranking|
  {
    EntryIndex(ranking[r], |items|).None?
  }

  /** The index of entry `r`, if that may be picked. */
  function Choice(
    k: Keying, items: seq<Item>, ranking: seq<Ranked>, history: seq<Entry>, today: int, r: nat): Option<nat>
    requires r < |ranking|
  {
    var index := EntryIndex(ranking[r], |items|);
    if index.Some? && !Blocked(k, items[index.value], history, today) then index else None
  }

  ghost predicate PicksFirst(
    k: Keying, items: seq<Item>, ranking: seq<Ranked>, history: seq<Entry>, today: int, o: Outcome)
  {
    match o
    case Picked(r, index) =>
      && r < |ranking| && Choice(k, items, ranking, history, today, r) == Some(index)
      && forall q :: 0 <= q < r ==> Choice(k, items, ranking, history, today, q).None?
    case EmptyRanking => ranking == []
    case AllInvalid => ranking != [] && forall q: nat :: q < |ranking| ==> Invalid(items, ranking, q)
    case AllBlocked =>
      && (forall q: nat :: q < |ranking| ==> Choice(k, items, ranking, history, today, q).None?)
      && exists q: nat :: q < |ranking| && !Invalid(items, ranking, q)
    case _ => false
  }

  /** The item shares a key with an entry of the last 90 days that is not today's. */
  predicate Seen(k: Keying, item: Item, history: seq<Entry>, today: int) {
    exists i :: 0 <= i < |history| && SeenIn(k, item, history[i], today)
  }

  predicate SeenIn(k: Keying, item: Item, e: Entry, today: int) {
    && e.Entry? && e.date.Some? && e.date.value != today && today - e.date.value < 90
    && k.Of(e.title, e.url) * k.Of(item.title, item.url) != {}
  }

  /** A ranking entry that cannot be picked: no dictionary, without an index, with one outside the
      items, or with that of an item seen before. */
  predicate Unusable(k: Keying, items: seq<Item>, r: Ranked, history: seq<Entry>, today: int) {
    match r
    case NotDict => true
    case Dict(None) => true
    case Dict(Some(index)) => index < 0 || index >= |items| || Seen(k, items[index], history, today)
  }

  /** The first usable entry is picked, under its own index; if there is none, nothing is. */
  ghost predicate FirstUsable(
    k: Keying, items: seq<Item>, ranking: seq<Ranked>, history: seq<Entry>, today: int, o: Outcome)
  {
    && (o.Picked? ==>
          && o.position < |ranking| && ranking[o.position] == Dict(Some(o.index))
          && o.index < |items| && !Seen(k, items[o.index], history, today))
    && forall q :: 0 <= q < (if o.Picked? then o.position else |ranking|) && q < |ranking| ==>
         Unusable(k, items, ranking[q], history, today)
  }

  lemma {:induction false} SeenIsBlocked(k: Keying, item: Item, history: seq<Entry>, today: int)
    ensures Seen(k, item, history, today) <==> Blocked(k, item, history, today)
  {
    var keys, recent := Keys(k, item), RecentKeys(k, history, today);
    if i :| 0 <= i < |history| && SeenIn(k, item, history[i], today) {
      var x :| x in EntryKeys(k, history[i]) * keys;
      assert InWindow(history[i], today) && x in keys * recent;
    }
    if x :| x in keys * recent {
      var i :| 0 <= i < |history| && InWindow(history[i], today) && x in EntryKeys(k, history[i]);
      assert x in k.Of(history[i].title, history[i].url) * k.Of(item.title, item.url);
      assert SeenIn(k, item, history[i], today);
    }
  }

  lemma {:induction false} PicksFirstUsable(
    k: Keying, items: seq<Item>, ranking: seq<Ranked>, history: seq<Entry>, today: int, o: Outcome)
    requires PicksFirst(k, items, ranking, history, today, o)
    ensures FirstUsable(k, items, ranking, history, today, o) == true
  {
    forall i | 0 <= i < |items|
      ensures Seen(k, items[i], history, today) <==> Blocked(k, items[i], history, today)
    {
      SeenIsBlocked(k, items[i], history, today);
    }
    forall q | 0 <= q < (if o.Picked? then o.position else |ranking|) && q < |ranking|
      ensures Unusable(k, items, ranking[q], history, today)
    {
      assert Choice(k, items, ranking, history, today, q).None? || Invalid(items, ranking, q);
    }
  }

  method PickTopic(k: Keying, items: seq<Item>, ranking: seq<Ranked>, history: seq<Entry>, today: int)
    returns (o: Outcome)
    ensures FirstUsable(k, items, ranking, history, today, o) == true
    ensures PicksFirst(k, items, ranking, history, today, o)
  {
    var recent, _ := RecentTopicKeys(k, history, today);
    var available: seq<(nat, nat)> := [];
    var invalid := 0;
    for r := 0 to |ranking|
      invariant 0 <= invalid <= r
      invariant invalid == r ==> forall q: nat :: q < r ==> Invalid(items, ranking, q)
      invariant invalid < r ==> exists q: nat :: q < r && !Invalid(items, ranking, q)
      invariant available == [] ==> forall q :: 0 <= q < r ==> Choice(k, items, ranking, history, today, q).None?
      invariant available != [] ==> PicksFirst(
                                      k, items, ranking, history, today, Picked(available[0].0, available[0].1))
    {
      var index := EntryIndex(ranking[r], |items|);
      if index.None? {
        invalid := invalid + 1;
        continue;
      }
      assert !Invalid(items, ranking, r);
      var item := items[index.value];
      if k.Of(item.title, item.url) * recent != {} {
        continue;
      }
      available := available + [(r, index.value)];
    }
    if available == [] {
      if ranking == [] {
        o := EmptyRanking;
      } else if invalid == |ranking| {
        o := AllInvalid;
      } else {
        o := AllBlocked;
      }
    } else {
      o := Picked(available[0].0, available[0].1);
    }
    PicksFirstUsable(k, items, ranking, history, today, o);
  }

  /** The ranking entry has the index of an item that the filter let through. */
  predicate PointsAtFresh(
    k: Keying, items: seq<Item>, ranking: seq<Ranked>, history: seq<Entry>, today: int, r: nat)
    requires r < |ranking|
  {
    && ranking[r].Dict? && ranking[r].index.Some? && ranking[r].index.value >= 0
    && ranking[r].index.value in FreshItemIndices(k, items, history, today)
  }

  /** It succeeds exactly when some ranking entry points at an item that the filter let through, and
      picks the first such entry. */
  lemma {:induction false} PicksIffFresh(
    k: Keying, items: seq<Item>, ranking: seq<Ranked>, history: seq<Entry>, today: int, o: Outcome)
    requires PicksFirst(k, items, ranking, history, today, o)
    ensures o.Picked? <==> exists r: nat :: r < |ranking| && PointsAtFresh(k, items, ranking, history, today, r)
    ensures o.Picked? ==>
              && o.position < |ranking| && PointsAtFresh(k, items, ranking, history, today, o.position)
              && ranking[o.position] == Dict(Some(o.index))
              && forall q: nat :: q < o.position ==> !PointsAtFresh(k, items, ranking, history, today, q)
  {
    forall r: nat | r < |ranking|
      ensures PointsAtFresh(k, items, ranking, history, today, r)
         <==> Choice(k, items, ranking, history, today, r).Some?
      ensures Choice(k, items, ranking, history, today, r).Some? ==> !Invalid(items, ranking, r)
    {
    }
    if o.Picked? {
      assert PointsAtFresh(k, items, ranking, history, today, o.position);
    }
  }

  /** What the filter lets through is exactly what no entry of the window has a key of. */
  lemma {:induction false} FreshAreUnseen(k: Keying, items: seq<Item>, history: seq<Entry>, today: int, i: nat)
    ensures i in FreshItemIndices(k, items, history, today) <==> i < |items| && !Seen(k, items[i], history, today)
  {
    if i < |items| {
      SeenIsBlocked(k, items[i], history, today);
    }
  }

  /** `x` is the key of a title or of a URL that is there, and says something. */
  predicate IsKey(k: Keying, title: string, url: string, x: string) {
    x != "" && ((title != "" && x == k.titleKey(title)) || (url != "" && x == k.urlKey(url)))
  }

  /** Two topics are the same when either key of one is either key of the other. */
  lemma {:induction false} SameTopic(k: Keying, a: Item, b: Item)
    ensures Meet(Keys(k, a), Keys(k, b))
       <==> exists x :: IsKey(k, a.title, a.url, x) && IsKey(k, b.title, b.url, x)
  {
    if x :| x in Keys(k, a) * Keys(k, b) {
      assert IsKey(k, a.title, a.url, x) && IsKey(k, b.title, b.url, x);
    }
    if x :| IsKey(k, a.title, a.url, x) && IsKey(k, b.title, b.url, x) {
      assert x in Keys(k, a) * Keys(k, b);
    }
  }

  /** Same window keys, same pick. */
  lemma {:induction false} PickIsDetermined(
    k: Keying, items: seq<Item>, ranking: seq<Ranked>, h: seq<Entry>, g: seq<Entry>, today: int,
    o: Outcome, p: Outcome)
    requires RecentKeys(k, h, today) == RecentKeys(k, g, today)
    requires PicksFirst(k, items, ranking, h, today, o) && PicksFirst(k, items, ranking, g, today, p)
    ensures o == p
  {
    forall q: nat | q < |ranking|
      ensures Choice(k, items, ranking, h, today, q) == Choice(k, items, ranking, g, today, q)
    {
    }
    assert forall q: nat :: q < |ranking| && Invalid(items, ranking, q) ==>
             Choice(k, items, ranking, h, today, q).None?;
  }

  // ---------- One day ----------

  predicate SharesKeyToday(k: Keying, e: Entry, keys: set<string>, today: int) {
    e.Entry? && e.date == Some(today) && Meet(EntryKeys(k, e), keys)
  }

  predicate AlreadyToday(k: Keying, history: seq<Entry>, keys: set<string>, today: int) {
    exists i :: 0 <= i < |history| && SharesKeyToday(k, history[i], keys, today)
  }

  function Pruned(history: seq<Entry>, today: int): (pruned: seq<Entry>)
    ensures forall e :: e in pruned <==> e in history && Kept(e, today)
  {
    if history == [] then []
    else
      var e := history[|history| - 1];
      var before := Pruned(history[..|history| - 1], today);
      if Kept(e, today) then before + [e] else before
  }

  function Recorded(k: Keying, history: seq<Entry>, item: Item, today: int): seq<Entry> {
    if AlreadyToday(k, history, Keys(k, item), today) then history
    else history + [Entry(Some(today), item.title, item.url)]
  }

  predicate Broken(history: seq<Entry>) {
    exists i :: 0 <= i < |history| && history[i].Malformed?
  }

  /** What a day makes of the history, given what was picked. */
  function HistoryAfter(k: Keying, history: seq<Entry>, items: seq<Item>, today: int, o: Outcome): seq<Entry> {
    if o.Picked? && o.index < |items| then Pruned(Recorded(k, history, items[o.index], today), today) else history
  }

  ghost predicate DayOutcome(
    k: Keying, history: seq<Entry>, items: seq<Item>, ranking: seq<Ranked>, today: int, o: Outcome)
  {
    if FreshItemIndices(k, items, history, today) == [] then o == NothingFresh
    else
      exists p :: PicksFirst(k, items, ranking, history, today, p)
             && o == if p.Picked? && Broken(history) then HistoryBroken else p
  }

  class Ranker {
    const k: Keying
    var history: seq<Entry>

    constructor (k: Keying, history: seq<Entry>)
      ensures this.k == k && this.history == history
    {
      this.k, this.history := k, history;
    }

    /** `main`, without the output files: `fail` and an uncaught exception leave the history file
        as it was. */
    method Run(items: seq<Item>, ranking: seq<Ranked>, today: int) returns (o: Outcome)
      modifies this`history
      ensures DayOutcome(k, old(history), items, ranking, today, o)
      ensures history == HistoryAfter(k, old(history), items, today, o)
    {
      if FreshItemIndices(k, items, history, today) == [] {
        return NothingFresh;
      }
      o := PickTopic(k, items, ranking, history, today);
      if !o.Picked? {
        return;
      }
      var chosen := items[o.index];
      var noted := IsNoted(k, history, k.Of(chosen.title, chosen.url), today);
      if noted.None? {
        assert PicksFirst(k, items, ranking, old(history), today, o);
        return HistoryBroken;
      }
      var longer := history;
      if !noted.value {
        longer := longer + [Entry(Some(today), chosen.title, chosen.url)];
      }
      var pruned := PruneWindow(longer, today);
      assert PicksFirst(k, items, ranking, old(history), today, o);
      assert Broken(longer) <==> Broken(old(history)) by {
        assert forall i :: 0 <= i < |history| ==> longer[i] == history[i];
      }
      if pruned.None? {
        return HistoryBroken;
      }
      history := pruned.value;
    }
  }

  /** The look for an entry of today's that shares a key; `None` when it meets an entry without
      `get` first, which raises. */
  method IsNoted(k: Keying, history: seq<Entry>, keys: set<string>, today: int) returns (noted: Option<bool>)
    ensures noted.Some? ==> noted.value == AlreadyToday(k, history, keys, today)
    ensures noted.None? ==> Broken(history)
  {
    for i := 0 to |history|
      invariant forall q :: 0 <= q < i ==> !SharesKeyToday(k, history[q], keys, today)
    {
      var h := history[i];
      if h.Malformed? {
        return None;
      }
      if h.date == Some(today) && k.Of(h.title, h.url) * keys != {} {
        assert SharesKeyToday(k, h, keys, today);
        return Some(true);
      }
    }
    return Some(false);
  }

  /** The loop that keeps the window; it reads every entry, and raises at one without `get`. */
  method PruneWindow(longer: seq<Entry>, today: int) returns (pruned: Option<seq<Entry>>)
    ensures pruned == if Broken(longer) then None else Some(Pruned(longer, today))
  {
    var kept: seq<Entry> := [];
    for i := 0 to |longer|
      invariant kept == Pruned(longer[..i], today)
      invariant forall q :: 0 <= q < i ==> !longer[q].Malformed?
    {
      assert longer[..i + 1][..i] == longer[..i];
      var h := longer[i];
      if h.Malformed? {
        return None;
      }
      if h.date.Some? && h.date.value >= Cutoff(today) {
        kept := kept + [h];
      }
    }
    assert longer[..|longer|] == longer;
    return Some(kept);
  }

  // ---------- Many days ----------

  /** A run of the script with the outcome it had. */
  datatype Day = Day(items: seq<Item>, ranking: seq<Ranked>, today: int, outcome: Outcome)

  function HistoryAt(k: Keying, initial: seq<Entry>, days: seq<Day>): seq<Entry> {
    if days == [] then initial
    else
      var d := days[|days| - 1];
      HistoryAfter(k, HistoryAt(k, initial, days[..|days| - 1]), d.items, d.today, d.outcome)
  }

  /** The outcomes are those the script has, and no day comes before an earlier one. */
  ghost predicate Legal(k: Keying, initial: seq<Entry>, days: seq<Day>) {
    days != [] ==>
      var d, earlier := days[|days| - 1], days[..|days| - 1];
      && Legal(k, initial, earlier)
      && DayOutcome(k, HistoryAt(k, initial, earlier), d.items, d.ranking, d.today, d.outcome)
      && forall i :: 0 <= i < |earlier| ==> earlier[i].today <= d.today
  }

  /** The entry that the last day added, if it added one. */
  function NewEntry(k: Keying, initial: seq<Entry>, days: seq<Day>): Option<Entry>
    requires days != []
  {
    var d, before := days[|days| - 1], HistoryAt(k, initial, days[..|days| - 1]);
    if d.outcome.Picked? && d.outcome.index < |d.items|
       && !AlreadyToday(k, before, Keys(k, d.items[d.outcome.index]), d.today)
    then
      var item := d.items[d.outcome.index];
      Some(Entry(Some(d.today), item.title, item.url))
    else None
  }

  /** Everything ever in the history, pruned or not, oldest first. */
  function EverRecorded(k: Keying, initial: seq<Entry>, days: seq<Day>): seq<Entry> {
    if days == [] then initial
    else
      var before := EverRecorded(k, initial, days[..|days| - 1]);
      if NewEntry(k, initial, days).Some? then before + [NewEntry(k, initial, days).value] else before
  }

  /** Pruning drops only what the window has passed for good. */
  lemma {:induction false} StillThere(k: Keying, initial: seq<Entry>, days: seq<Day>, t: int, e: Entry)
    requires Legal(k, initial, days) && (forall i :: 0 <= i < |days| ==> days[i].today <= t)
    requires e in EverRecorded(k, initial, days) && Kept(e, t)
    ensures e in HistoryAt(k, initial, days)
  {
    if days != [] {
      var d, earlier := days[|days| - 1], days[..|days| - 1];
      assert Kept(e, d.today);
      if e in EverRecorded(k, initial, earlier) {
        StillThere(k, initial, earlier, t, e);
      }
    }
  }

  lemma {:induction false} PickIsUnblocked(
    k: Keying, history: seq<Entry>, items: seq<Item>, ranking: seq<Ranked>, today: int, o: Outcome, e: Entry)
    requires DayOutcome(k, history, items, ranking, today, o) && o.Picked?
    requires e in history && InWindow(e, today)
    ensures o.index < |items| && !Meet(EntryKeys(k, e), Keys(k, items[o.index]))
  {
    var i :| 0 <= i < |history| && history[i] == e;
    assert EntryKeys(k, e) <= RecentKeys(k, history, today);
    assert Choice(k, items, ranking, history, today, o.position) == Some(o.index);
    assert !Blocked(k, items[o.index], history, today);
  }

  lemma {:induction false} NewEntryIsUnblocked(k: Keying, initial: seq<Entry>, days: seq<Day>, e: Entry)
    requires days != [] && Legal(k, initial, days) && NewEntry(k, initial, days).Some?
    requires e in EverRecorded(k, initial, days[..|days| - 1]) && InWindow(e, days[|days| - 1].today)
    ensures !Meet(EntryKeys(k, e), EntryKeys(k, NewEntry(k, initial, days).value))
  {
    var d, earlier := days[|days| - 1], days[..|days| - 1];
    StillThere(k, initial, earlier, d.today, e);
    PickIsUnblocked(k, HistoryAt(k, initial, earlier), d.items, d.ranking, d.today, d.outcome, e);
  }

  /** Over any run of days, a topic recorded in it shares no key with one recorded before it, or found
      in the history at the start, on another date less than 90 days earlier: pruned or not. */
  lemma {:induction false} NeverRepeats(k: Keying, initial: seq<Entry>, days: seq<Day>, i: nat, j: nat)
    requires Legal(k, initial, days)
    requires var all := EverRecorded(k, initial, days);
             && i < j < |all| && |initial| <= j && all[i].Entry? && all[i].date.Some?
    ensures var all := EverRecorded(k, initial, days);
            && all[j].Entry? && all[j].date.Some?
            && (all[i].date != all[j].date && all[j].date.value - all[i].date.value < 90 ==>
                  !Meet(EntryKeys(k, all[i]), EntryKeys(k, all[j])))
  {
    var earlier := days[..|days| - 1];
    var before, all := EverRecorded(k, initial, earlier), EverRecorded(k, initial, days);
    if j < |before| {
      NeverRepeats(k, initial, earlier, i, j);
    } else if all[i].date != all[j].date && all[j].date.value - all[i].date.value < HISTORY_DAYS {
      assert before[i] in before;
      NewEntryIsUnblocked(k, initial, days, before[i]);
    }
  }

  // ---------- Running again on the same day ----------

  lemma {:induction false} RecentAfterPrune(k: Keying, history: seq<Entry>, today: int)
    ensures RecentKeys(k, Pruned(history, today), today) == RecentKeys(k, history, today)
  {
    if history != [] {
      RecentAfterPrune(k, history[..|history| - 1], today);
      var e, before := history[|history| - 1], Pruned(history[..|history| - 1], today);
      if Kept(e, today) {
        assert (before + [e])[..|before|] == before;
      }
    }
  }

  lemma {:induction false} PrunedTwice(history: seq<Entry>, today: int)
    ensures Pruned(Pruned(history, today), today) == Pruned(history, today)
  {
    if history != [] {
      PrunedTwice(history[..|history| - 1], today);
      var e, before := history[|history| - 1], Pruned(history[..|history| - 1], today);
      if Kept(e, today) {
        assert (before + [e])[..|before|] == before;
      }
    }
  }

  lemma {:induction false} RecentAfterToday(k: Keying, history: seq<Entry>, e: Entry, today: int)
    requires e.Entry? && e.date == Some(today)
    ensures RecentKeys(k, history + [e], today) == RecentKeys(k, history, today)
    ensures Pruned(history + [e], today) == Pruned(history, today) + [e]
  {
    assert (history + [e])[..|history|] == history;
  }

  lemma {:induction false} SameOutcome(
    k: Keying, h: seq<Entry>, g: seq<Entry>, items: seq<Item>, ranking: seq<Ranked>, today: int,
    o: Outcome, again: Outcome)
    requires RecentKeys(k, h, today) == RecentKeys(k, g, today) && !Broken(g)
    requires DayOutcome(k, h, items, ranking, today, o) && o.Picked?
    requires DayOutcome(k, g, items, ranking, today, again)
    ensures again == o
  {
    SameFresh(k, items, h, g, today);
    PickIsDetermined(k, items, ranking, h, g, today, o, again);
  }

  /** Running again on the same day with the same items and ranking picks the same item, and leaves
      the history as it is exactly when that item has a key at all. */
  lemma {:induction false} SameDayAgain(
    k: Keying, history: seq<Entry>, items: seq<Item>, ranking: seq<Ranked>, today: int,
    o: Outcome, after: seq<Entry>, again: Outcome)
    requires DayOutcome(k, history, items, ranking, today, o) && o.Picked?
    requires after == HistoryAfter(k, history, items, today, o)
    requires DayOutcome(k, after, items, ranking, today, again)
    ensures again == o && o.index < |items|
    ensures HistoryAfter(k, after, items, today, again) == after <==> Keys(k, items[o.index]) != {}
  {
    var item := items[o.index];
    var e := Entry(Some(today), item.title, item.url);
    var longer := Recorded(k, history, item, today);
    RecentAfterPrune(k, longer, today);
    RecentAfterToday(k, history, e, today);
    PrunedTwice(longer, today);
    assert RecentKeys(k, after, today) == RecentKeys(k, history, today);
    PrunedIsWhole(longer, today);
    SameOutcome(k, history, after, items, ranking, today, o, again);
    NotedAfterwards(k, history, item, today, e, after);
    RerunHistory(k, after, item, today, e);
  }

  lemma {:induction false} RerunHistory(k: Keying, after: seq<Entry>, item: Item, today: int, e: Entry)
    requires e == Entry(Some(today), item.title, item.url) && Pruned(after, today) == after
    ensures Pruned(Recorded(k, after, item, today), today) == after
       <==> AlreadyToday(k, after, Keys(k, item), today)
  {
    RecentAfterToday(k, after, e, today);
  }

  lemma {:induction false} SameFresh(k: Keying, items: seq<Item>, h: seq<Entry>, g: seq<Entry>, today: int)
    requires RecentKeys(k, h, today) == RecentKeys(k, g, today)
    ensures FreshItemIndices(k, items, h, today) == FreshItemIndices(k, items, g, today)
  {
    if items != [] {
      SameFresh(k, items[..|items| - 1], h, g, today);
    }
  }

  lemma {:induction false} NotedAfterwards(
    k: Keying, history: seq<Entry>, item: Item, today: int, e: Entry, after: seq<Entry>)
    requires e == Entry(Some(today), item.title, item.url)
    requires after == Pruned(Recorded(k, history, item, today), today)
    ensures AlreadyToday(k, after, Keys(k, item), today) <==> Keys(k, item) != {}
  {
    var keys := Keys(k, item);
    if keys != {} {
      var noted: Entry;
      if AlreadyToday(k, history, keys, today) {
        var i :| 0 <= i < |history| && SharesKeyToday(k, history[i], keys, today);
        noted := history[i];
      } else {
        noted := e;
        assert keys * keys == keys;
      }
      assert noted in Recorded(k, history, item, today) && noted in after;
      var j :| 0 <= j < |after| && after[j] == noted;
      assert SharesKeyToday(k, after[j], keys, today);
    }
  }

  // ---------- A broken history ----------

  /** An entry that is no dictionary is ignored when picking, but makes the day raise. */
  lemma {:induction false} OneBadEntry(k: Keying, item: Item, day: int, bad: seq<Entry>, none: seq<Entry>)
    requires bad == [Malformed] && none == []
    ensures RecentKeys(k, bad, day) == RecentKeys(k, none, day)
    ensures DayOutcome(k, bad, [item], [Dict(Some(0))], day, HistoryBroken)
    ensures HistoryAfter(k, bad, [item], day, HistoryBroken) == bad
  {
    assert bad[..0] == none && bad[0].Malformed?;
    var items, ranking := [item], [Dict(Some(0))];
    assert items[0] == item && !Blocked(k, item, bad, day);
    assert 0 in FreshItemIndices(k, items, bad, day);
    assert Choice(k, items, ranking, bad, day, 0) == Some(0);
    assert PicksFirst(k, items, ranking, bad, day, Picked(0, 0));
  }

  /** The day raises exactly when there is such an entry and the ranking has something to pick; so
      a topic is picked only from a history without one. */
  lemma {:induction false} BrokenExactly(
    k: Keying, history: seq<Entry>, items: seq<Item>, ranking: seq<Ranked>, day: int, o: Outcome)
    requires DayOutcome(k, history, items, ranking, day, o)
    ensures o.HistoryBroken? <==>
              Broken(history) && exists r: nat :: r < |ranking| && PointsAtFresh(k, items, ranking, history, day, r)
    ensures o.Picked? <==>
              !Broken(history) && exists r: nat :: r < |ranking| && PointsAtFresh(k, items, ranking, history, day, r)
  {
    if FreshItemIndices(k, items, history, day) != [] {
      var p :| PicksFirst(k, items, ranking, history, day, p)
            && o == (if p.Picked? && Broken(history) then HistoryBroken else p);
      PicksIffFresh(k, items, ranking, history, day, p);
    }
  }

  /** Broken as it was at the start, and then the same; or not broken, as it was not.  (Contracts compare
      this with `true` so that the verifier does not unfold the run of days in it.) */
  ghost predicate BrokenAsBefore(initial: seq<Entry>, history: seq<Entry>) {
    (Broken(history) <==> Broken(initial)) && (Broken(initial) ==> history == initial)
  }

  lemma {:induction false} PrunedIsWhole(history: seq<Entry>, today: int)
    ensures !Broken(Pruned(history, today))
  {
    var pruned := Pruned(history, today);
    forall i | 0 <= i < |pruned| ensures !pruned[i].Malformed? {
      assert pruned[i] in pruned;
    }
  }

  lemma {:induction false} DayKeepsBroken(
    k: Keying, initial: seq<Entry>, history: seq<Entry>, items: seq<Item>, ranking: seq<Ranked>, day: int,
    o: Outcome, after: seq<Entry>)
    requires DayOutcome(k, history, items, ranking, day, o) && BrokenAsBefore(initial, history)
    requires after == HistoryAfter(k, history, items, day, o)
    ensures BrokenAsBefore(initial, after) == true
  {
    BrokenExactly(k, history, items, ranking, day, o);
    if o.Picked? && o.index < |items| {
      PrunedIsWhole(Recorded(k, history, items[o.index], day), day);
    }
  }

  lemma {:induction false} BrokenAlways(k: Keying, initial: seq<Entry>, days: seq<Day>)
    requires Legal(k, initial, days)
    ensures BrokenAsBefore(initial, HistoryAt(k, initial, days)) == true
  {
    if days != [] {
      var d, earlier := days[|days| - 1], days[..|days| - 1];
      BrokenAlways(k, initial, earlier);
      DayKeepsBroken(k, initial, HistoryAt(k, initial, earlier), d.items, d.ranking, d.today, d.outcome,
                     HistoryAt(k, initial, days));
    }
  }

  /** One such entry stops the script for good, whatever is offered on whatever day: nothing is picked
      and the file stays as it is.  And no run of days brings such an entry in. */
  lemma {:induction false} BrokenForever(k: Keying, initial: seq<Entry>, days: seq<Day>)
    requires Legal(k, initial, days)
    ensures BrokenAsBefore(initial, HistoryAt(k, initial, days)) == true
    ensures forall i :: 0 <= i < |days| ==>
              if Broken(initial) then !days[i].outcome.Picked? else !days[i].outcome.HistoryBroken?
  {
    BrokenAlways(k, initial, days);
    forall i | 0 <= i < |days|
      ensures if Broken(initial) then !days[i].outcome.Picked? else !days[i].outcome.HistoryBroken?
    {
      BrokenDay(k, initial, days, i);
    }
  }

  lemma {:induction false} BrokenDay(k: Keying, initial: seq<Entry>, days: seq<Day>, i: nat)
    requires Legal(k, initial, days) && i < |days|
    ensures if Broken(initial) then !days[i].outcome.Picked? else !days[i].outcome.HistoryBroken?
  {
    if i < |days| - 1 {
      BrokenDay(k, initial, days[..|days| - 1], i);
    } else {
      BrokenAlways(k, initial, days[..i]);
      BrokenLast(k, initial, HistoryAt(k, initial, days[..i]), days[i]);
    }
  }

  lemma {:induction false} BrokenLast(k: Keying, initial: seq<Entry>, history: seq<Entry>, d: Day)
    requires BrokenAsBefore(initial, history) == true
    requires DayOutcome(k, history, d.items, d.ranking, d.today, d.outcome)
    ensures if Broken(initial) then !d.outcome.Picked? else !d.outcome.HistoryBroken?
  {
    BrokenExactly(k, history, d.items, d.ranking, d.today, d.outcome);
  }

  // ---------- What is not recorded ----------

  lemma {:induction false} OneEntry(k: Keying, e: Entry, one: seq<Entry>, today: int)
    requires one == [e] && e.Entry? && e.date.Some?
    ensures RecentKeys(k, one, today) == if InWindow(e, today) then EntryKeys(k, e) else {}
    ensures e.date.value == today ==> Pruned(one, today) == one
    ensures forall keys :: AlreadyToday(k, one, keys, today) <==> SharesKeyToday(k, e, keys, today)
  {
    assert one[..0] == [];
  }

  /** What is not recorded is not protected: `b`, picked on a day that had already recorded `a` with a
      key of `b`, leaves no entry, and `c` may repeat `b` the next day. */
  lemma {:induction false} UnrecordedPickRepeats(
    k: Keying, a: Item, b: Item, c: Item, day: int, none: seq<Entry>, noted: seq<Entry>, o: Outcome)
    requires Meet(Keys(k, a), Keys(k, b)) && Meet(Keys(k, b), Keys(k, c)) && !Meet(Keys(k, a), Keys(k, c))
    requires none == [] && noted == [Entry(Some(day), a.title, a.url)] && o == Picked(0, 0)
    ensures DayOutcome(k, none, [a], [Dict(Some(0))], day, o) && HistoryAfter(k, none, [a], day, o) == noted
    ensures DayOutcome(k, noted, [b], [Dict(Some(0))], day, o) && HistoryAfter(k, noted, [b], day, o) == noted
    ensures DayOutcome(k, noted, [c], [Dict(Some(0))], day + 1, o)
  {
    var e := Entry(Some(day), a.title, a.url);
    FirstNoted(k, none, a, day, e);
    NotedAgain(k, b, day, e, noted);
    OneEntry(k, e, noted, day);
    OneEntry(k, e, noted, day + 1);
    PicksOnly(k, none, a, day);
    PicksOnly(k, noted, b, day);
    PicksOnly(k, noted, c, day + 1);
  }

  lemma {:induction false} FirstNoted(k: Keying, none: seq<Entry>, a: Item, day: int, e: Entry)
    requires none == [] && e == Entry(Some(day), a.title, a.url)
    ensures Pruned(Recorded(k, none, a, day), day) == [e]
  {
    RecentAfterToday(k, none, e, day);
  }

  lemma {:induction false} NotedAgain(k: Keying, b: Item, day: int, e: Entry, noted: seq<Entry>)
    requires noted == [e] && SharesKeyToday(k, e, Keys(k, b), day)
    ensures Pruned(Recorded(k, noted, b, day), day) == noted
  {
    OneEntry(k, e, noted, day);
  }

  lemma {:induction false} PicksOnly(k: Keying, history: seq<Entry>, item: Item, today: int)
    requires !Blocked(k, item, history, today) && !Broken(history)
    ensures DayOutcome(k, history, [item], [Dict(Some(0))], today, Picked(0, 0))
  {
    assert 0 in FreshItemIndices(k, [item], history, today);
    assert PicksFirst(k, [item], [Dict(Some(0))], history, today, Picked(0, 0));
  }

  // ---------- When a pick is protected ----------

  /** Every key stands in some entry of that day. */
  ghost predicate Covered(k: Keying, history: seq<Entry>, keys: set<string>, day: int) {
    forall x :: x in keys ==> exists i :: 0 <= i < |history| && CoversKey(k, history[i], x, day)
  }

  predicate CoversKey(k: Keying, e: Entry, x: string, day: int) {
    e.Entry? && e.date == Some(day) && x in EntryKeys(k, e)
  }

  /** For as long as the window is, whatever shares a key with `item` is blocked. */
  ghost predicate Protected(k: Keying, after: seq<Entry>, item: Item, day: int) {
    forall x: Item, t :: day < t < day + HISTORY_DAYS && Meet(Keys(k, x), Keys(k, item)) ==> Blocked(k, x, after, t)
  }

  lemma {:induction false} CoveredIsBlocked(k: Keying, after: seq<Entry>, item: Item, day: int, x: Item, t: int)
    requires Covered(k, after, Keys(k, item), day)
    requires day < t < day + HISTORY_DAYS && Meet(Keys(k, x), Keys(k, item))
    ensures Blocked(k, x, after, t)
  {
    var key :| key in Keys(k, x) * Keys(k, item);
    var i :| 0 <= i < |after| && CoversKey(k, after[i], key, day);
    assert InWindow(after[i], t);
    assert key in RecentKeys(k, after, t);
    assert key in Keys(k, x) * RecentKeys(k, after, t);
  }

  lemma {:induction false} Apart(a: set<string>, b: set<string>, x: string)
    ensures !Meet(a, b) && x in a ==> x !in b
  {
    assert x in a && x in b ==> x in a * b;
  }

  /** An item that has one key of another, and no other. */
  lemma {:induction false} SingleKey(k: Keying, item: Item, key: string) returns (x: Item)
    requires key in Keys(k, item)
    ensures Keys(k, x) == {key}
  {
    if item.title != "" && k.titleKey(item.title) == key {
      x := Item(item.title, "");
    } else {
      x := Item("", item.url);
    }
  }

  /** A key of an item that was free on `day` blocks nothing the day after, unless an entry of `day`
      has it. */
  lemma {:induction false} UncoveredIsOpen(
    k: Keying, history: seq<Entry>, after: seq<Entry>, item: Item, day: int, key: string)
    requires !Blocked(k, item, history, day) && key in Keys(k, item)
    requires forall e :: e in after ==> e in history
    requires forall i :: 0 <= i < |after| ==> !CoversKey(k, after[i], key, day)
    ensures key !in RecentKeys(k, after, day + 1)
  {
    Apart(Keys(k, item), RecentKeys(k, history, day), key);
    forall i | 0 <= i < |after| && InWindow(after[i], day + 1)
      ensures key !in EntryKeys(k, after[i])
    {
      assert after[i] in after;
      var j :| 0 <= j < |history| && history[j] == after[i];
      assert !CoversKey(k, after[i], key, day);
      assert history[j].date == Some(day) || InWindow(history[j], day);
    }
  }

  lemma {:induction false} CoveredAfterwards(k: Keying, history: seq<Entry>, item: Item, day: int, after: seq<Entry>)
    requires after == Pruned(Recorded(k, history, item, day), day)
    ensures Covered(k, after, Keys(k, item), day)
       <==> !AlreadyToday(k, history, Keys(k, item), day) || Covered(k, history, Keys(k, item), day)
  {
    var keys := Keys(k, item);
    if !AlreadyToday(k, history, keys, day) {
      var e := Entry(Some(day), item.title, item.url);
      assert e in Recorded(k, history, item, day) && e in after;
      var j :| 0 <= j < |after| && after[j] == e;
      assert forall x :: x in keys ==> CoversKey(k, after[j], x, day);
    } else {
      if Covered(k, history, keys, day) {
        forall x | x in keys ensures exists i :: 0 <= i < |after| && CoversKey(k, after[i], x, day) {
          var i :| 0 <= i < |history| && CoversKey(k, history[i], x, day);
          assert history[i] in after;
        }
      }
      if Covered(k, after, keys, day) {
        forall x | x in keys ensures exists i :: 0 <= i < |history| && CoversKey(k, history[i], x, day) {
          var i :| 0 <= i < |after| && CoversKey(k, after[i], x, day);
          assert after[i] in history;
        }
      }
    }
  }

  /** A pick is protected exactly when it is recorded, or every key it has stands in an entry that the
      day had already: what shares a key with it is then blocked for the rest of the window. */
  lemma {:induction false} PickProtectedExactly(
    k: Keying, history: seq<Entry>, items: seq<Item>, ranking: seq<Ranked>, day: int, o: Outcome, item: Item)
    requires DayOutcome(k, history, items, ranking, day, o) && o.Picked?
    requires o.index < |items| && item == items[o.index]
    ensures Protected(k, HistoryAfter(k, history, items, day, o), item, day)
       <==> !AlreadyToday(k, history, Keys(k, item), day) || Covered(k, history, Keys(k, item), day)
  {
    var after := HistoryAfter(k, history, items, day, o);
    assert Choice(k, items, ranking, history, day, o.position) == Some(o.index);
    CoveredAfterwards(k, history, item, day, after);
    if Covered(k, after, Keys(k, item), day) {
      forall x: Item, t | day < t < day + HISTORY_DAYS && Meet(Keys(k, x), Keys(k, item))
        ensures Blocked(k, x, after, t)
      {
        CoveredIsBlocked(k, after, item, day, x, t);
      }
    } else {
      var key :| key in Keys(k, item) && forall i :: 0 <= i < |after| ==> !CoversKey(k, after[i], key, day);
      assert AlreadyToday(k, history, Keys(k, item), day);
      UncoveredIsOpen(k, history, after, item, day, key);
      var x := SingleKey(k, item, key);
      assert key in Keys(k, x) * Keys(k, item);
      assert !Blocked(k, x, after, day + 1);
    }
  }

  lemma {:induction false} BlockingEntry(
    k: Keying, after: seq<Entry>, item: Item, day: int, later: Item, t: int, key: string) returns (e: Entry)
    requires Protected(k, after, item, day) && day < t < day + HISTORY_DAYS
    requires key in Keys(k, item) && key in Keys(k, later)
    ensures e in after && InWindow(e, t) && key in EntryKeys(k, e)
  {
    var x := SingleKey(k, later, key);
    assert key in Keys(k, x) * Keys(k, item);
    assert Blocked(k, x, after, t);
    assert key in RecentKeys(k, after, t);
    var i :| 0 <= i < |after| && InWindow(after[i], t) && key in EntryKeys(k, after[i]);
    e := after[i];
  }

  lemma {:induction false} EntryStays(k: Keying, initial: seq<Entry>, days: seq<Day>, n: nat, t: int, e: Entry)
    requires Legal(k, initial, days) && (forall i :: 0 <= i < |days| ==> days[i].today <= t)
    requires n <= |days| && e in HistoryAt(k, initial, days[..n]) && Kept(e, t)
    ensures e in HistoryAt(k, initial, days)
  {
    HistoryIsRecorded(k, initial, days[..n], e);
    EverRecordedGrows(k, initial, days, n, e);
    StillThere(k, initial, days, t, e);
  }

  /** In a run of days a protected pick, recorded or not, therefore shares no key with any later pick
      of the window. */
  lemma {:induction false} ProtectedNeverRepeats(
    k: Keying, initial: seq<Entry>, days: seq<Day>, n: nat, item: Item, day: int, last: Day, later: Item)
    requires Legal(k, initial, days) && n < |days| && last == days[|days| - 1]
    requires Protected(k, HistoryAt(k, initial, days[..n]), item, day)
    requires last.outcome.Picked? && last.outcome.index < |last.items| && later == last.items[last.outcome.index]
    requires day < last.today < day + HISTORY_DAYS
    ensures !Meet(Keys(k, item), Keys(k, later))
  {
    var earlier := days[..|days| - 1];
    assert earlier[..n] == days[..n];
    forall key | key in Keys(k, item)
      ensures key !in Keys(k, later)
    {
      if key in Keys(k, later) {
        var e := BlockingEntry(k, HistoryAt(k, initial, days[..n]), item, day, later, last.today, key);
        EntryStays(k, initial, earlier, n, last.today, e);
        PickIsUnblocked(
          k, HistoryAt(k, initial, earlier), last.items, last.ranking, last.today, last.outcome, e);
        Apart(EntryKeys(k, e), Keys(k, later), key);
      }
    }
  }

  lemma {:induction false} HistoryIsRecorded(k: Keying, initial: seq<Entry>, days: seq<Day>, e: Entry)
    requires e in HistoryAt(k, initial, days)
    ensures e in EverRecorded(k, initial, days)
  {
    if days != [] {
      var earlier := days[..|days| - 1];
      if e in HistoryAt(k, initial, earlier) {
        HistoryIsRecorded(k, initial, earlier, e);
      }
    }
  }

  lemma {:induction false} EverRecordedGrows(k: Keying, initial: seq<Entry>, days: seq<Day>, n: nat, e: Entry)
    requires n <= |days| && e in EverRecorded(k, initial, days[..n])
    ensures e in EverRecorded(k, initial, days)
  {
    if n < |days| {
      assert days[..|days| - 1][..n] == days[..n];
      EverRecordedGrows(k, initial, days[..|days| - 1], n, e);
    } else {
      assert days[..n] == days;
    }
  }
}
