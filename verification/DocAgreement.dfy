/** What the document index is for: over every run it agrees with the documents, and a filtered query
    answers as a scan of the documents would. */
module DocAgreement {
  import opened Decimal
  import opened StoreTypes
  import opened Ordering
  import opened Paging
  import opened FilteredPaging
  import opened DocIndex
  import Like

  // ---------------------------------------------------------------- one step

  datatype Op =
    | Configure(fields: seq<string>, search: seq<string>)
    | PutDoc(id: string, value: Json, opts: WriteOptions, createOnly: bool)
    | DeleteDoc(id: string)
    | GetDoc(id: string)

  ghost predicate Step(t: Tables, u: Tables, op: Op, now: int) {
    match op
    case Configure(fields, search) => Configured(t, u, fields, search, now)
    case PutDoc(id, value, opts, createOnly) => Put(t, u, id, value, opts, createOnly, now)
    case DeleteDoc(id) => Removed(t, u, id)
    case GetDoc(id) => LookedUp(t, u, id, now)
  }

  lemma ConfiguredNames(fields: seq<string>, search: seq<string>, r: ConfigRow)
    ensures r in ConfigOf(fields, search) <==>
              if r.kind == Field then r.field in ValidNames(fields) else r.field in ValidNames(search)
    ensures r in ConfigOf(fields, search) ==> ValidDocName(r.field)
  {
    hide TrimSpace, ValidDocName;
  }

  lemma StepKeepsWellFormed(t: Tables, u: Tables, op: Op, now: int)
    requires WellFormed(t) && Step(t, u, op, now)
    ensures WellFormed(u)
  {
    hide ValidDocName, ConfigOf, ValidNames, Listing, SearchText;
    forall r | r in u.config && r !in t.config
      ensures ValidDocName(r.field)
    {
      match op {
        case Configure(fields, search) => ConfiguredNames(fields, search, r);
        case PutDoc(_, _, opts, _) => ConfiguredNames(opts.indexed, opts.search, r);
        case DeleteDoc(_) =>
        case GetDoc(_) =>
      }
    }
  }

  lemma ConfigureKeepsSound(t: Tables, u: Tables, fields: seq<string>, search: seq<string>, now: int)
    requires Sound(t) && Configured(t, u, fields, search, now)
    ensures Sound(u)
  {
    hide ConfigOf, ValidNames, Listing, SearchText, FieldText, Parse;
    forall key | key in u.index
      ensures key.id in u.docs && ConfigRow(Field, key.field) in u.config
      ensures Indexable(u.docs[key.id].value, key) && u.index[key] == key.hash.of
    {
      ConfiguredNames(fields, search, ConfigRow(Field, key.field));
    }
  }

  lemma StepKeepsSound(t: Tables, u: Tables, op: Op, now: int)
    requires Sound(t) && Step(t, u, op, now)
    ensures Sound(u)
  {
    hide Configured, ConfigOf, Listing, SearchText, FieldText, Parse;
    match op {
      case Configure(fields, search) => ConfigureKeepsSound(t, u, fields, search, now);
      case PutDoc(_, _, _, _) =>
      case DeleteDoc(_) =>
      case GetDoc(_) =>
    }
  }

  // ---------------------------------------------------------------- completeness

  /** From any tables at all, sound or not, a configuration that goes through makes the index exact: a row
      is there if and only if a live document calls for it; and search texts are up to date. */
  lemma ConfigureMakesExact(t: Tables, u: Tables, fields: seq<string>, search: seq<string>, now: int)
    requires Configured(t, u, fields, search, now)
    requires forall id :: Alive(t, id, now) ==> Parse(t.docs[id].value).Some?
    ensures forall key: IndexKey :: key in u.index <==>
              Alive(u, key.id, now) && ConfigRow(Field, key.field) in u.config && Indexable(u.docs[key.id].value, key)
    ensures Sound(u) && Complete(u, now) && Searchable(u, now)
  {
    hide ConfigOf, ValidNames, Listing, SearchText, FieldText, Parse;
    forall key: IndexKey
      ensures key in u.index <==>
                Alive(u, key.id, now) && ConfigRow(Field, key.field) in u.config && Indexable(u.docs[key.id].value, key)
    {
      ConfiguredNames(fields, search, ConfigRow(Field, key.field));
    }
    forall f
      ensures f in NamesOf(u.config, Search) <==> f in ValidNames(search)
    {
      ConfiguredNames(fields, search, ConfigRow(Search, f));
    }
    assert NamesOf(u.config, Search) == ValidNames(search);
  }

  /** Some other live document has a value to index at a field that this write starts to index. */
  ghost predicate LeavesGap(t: Tables, id: string, opts: WriteOptions, now: int) {
    exists key: IndexKey ::
      && key.id != id && Alive(t, key.id, now) && Indexable(t.docs[key.id].value, key)
      && key.field in ValidNames(opts.indexed) && ConfigRow(Field, key.field) !in t.config
  }

  /** A write that goes through keeps a complete index complete if and only if every field it newly starts
      to index is one that no other live document has a scalar at. */
  lemma PutKeepsComplete(t: Tables, u: Tables, id: string, value: Json, opts: WriteOptions, createOnly: bool, now: int)
    requires Put(t, u, id, value, opts, createOnly, now) && PutOutcome(t, id, value, createOnly, now).Stored?
    requires Sound(t) && Complete(t, now)
    ensures Complete(u, now) <==> !LeavesGap(t, id, opts, now)
  {
    hide ConfigOf, ValidNames, Listing, SearchText, FieldText, Parse;
    forall f
      ensures ConfigRow(Field, f) in u.config <==> ConfigRow(Field, f) in t.config || f in ValidNames(opts.indexed)
    {
      ConfiguredNames(opts.indexed, opts.search, ConfigRow(Field, f));
    }
    if LeavesGap(t, id, opts, now) {
      var key: IndexKey :|
        && key.id != id && Alive(t, key.id, now) && Indexable(t.docs[key.id].value, key)
        && key.field in ValidNames(opts.indexed) && ConfigRow(Field, key.field) !in t.config;
      assert key !in t.index;
      assert key !in u.index && ConfigRow(Field, key.field) in u.config && Alive(u, key.id, now);
    }
  }

  /** In particular, a write that names no new field. */
  lemma NoNewFieldNoGap(t: Tables, id: string, opts: WriteOptions, now: int)
    requires ValidNames(opts.indexed) <= NamesOf(t.config, Field)
    ensures !LeavesGap(t, id, opts, now)
  {
    hide ValidNames;
    forall f | f in NamesOf(t.config, Field)
      ensures ConfigRow(Field, f) in t.config
    {
    }
  }

  lemma CompleteLater(t: Tables, now: int, later: int)
    requires Complete(t, now) && now <= later
    ensures Complete(t, later)
  {
    hide FieldText;
  }

  ghost predicate Harmless(t: Tables, op: Op, now: int) {
    op.PutDoc? && PutOutcome(t, op.id, op.value, op.createOnly, now).Stored? ==> !LeavesGap(t, op.id, op.opts, now)
  }

  lemma StepKeepsComplete(t: Tables, u: Tables, op: Op, now: int)
    requires WellFormed(t) && Sound(t) && Complete(t, now) && Step(t, u, op, now) && Harmless(t, op, now)
    ensures Complete(u, now)
  {
    hide Configured, Put, ConfigOf, Listing, SearchText, FieldText, LeavesGap, ValidDocName;
    match op {
      case Configure(fields, search) => ConfigureMakesExact(t, u, fields, search, now);
      case PutDoc(id, value, opts, createOnly) =>
        if PutOutcome(t, id, value, createOnly, now).Stored? {
          PutKeepsComplete(t, u, id, value, opts, createOnly, now);
        } else {
          PutRefused(t, u, id, value, opts, createOnly, now);
        }
      case DeleteDoc(_) =>
      case GetDoc(_) =>
    }
  }

  lemma PutRefused(t: Tables, u: Tables, id: string, value: Json, opts: WriteOptions, createOnly: bool, now: int)
    requires Put(t, u, id, value, opts, createOnly, now) && !PutOutcome(t, id, value, createOnly, now).Stored?
    ensures u == t
  {
  }

  // ---------------------------------------------------------------- search texts

  /** Some other live document's search text changes with the search fields that this write adds. */
  ghost predicate StalesSearch(t: Tables, id: string, opts: WriteOptions, now: int) {
    var names := NamesOf(t.config, Search);
    exists j :: j != id && Alive(t, j, now) &&
      SearchText(t.docs[j].value, Listing(names)) !=
      SearchText(t.docs[j].value, Listing(names + ValidNames(opts.search)))
  }

  /** A write that goes through keeps all search texts up to date if and only if the search fields it adds
      change nobody else's. */
  lemma PutKeepsSearchable(
      t: Tables, u: Tables, id: string, value: Json, opts: WriteOptions, createOnly: bool, now: int)
    requires Put(t, u, id, value, opts, createOnly, now) && PutOutcome(t, id, value, createOnly, now).Stored?
    requires Searchable(t, now)
    ensures Searchable(u, now) <==> !StalesSearch(t, id, opts, now)
  {
    hide ConfigOf, ValidNames, Listing, SearchText, FieldText, Parse, NamesOf;
    ConfigUnion(t.config, opts.indexed, opts.search);
    forall j | j != id
      ensures Alive(u, j, now) <==> Alive(t, j, now)
      ensures j in t.docs ==> u.docs[j] == t.docs[j]
    {
    }
  }

  ghost predicate KeepsSearch(t: Tables, op: Op, now: int) {
    op.PutDoc? && PutOutcome(t, op.id, op.value, op.createOnly, now).Stored? ==> !StalesSearch(t, op.id, op.opts, now)
  }

  lemma StepKeepsSearchable(t: Tables, u: Tables, op: Op, now: int)
    requires WellFormed(t) && Searchable(t, now) && Step(t, u, op, now) && KeepsSearch(t, op, now)
    ensures Searchable(u, now)
  {
    hide Configured, Put, ConfigOf, Listing, SearchText, FieldText, StalesSearch, ValidDocName;
    match op {
      case Configure(fields, search) => ConfigureMakesExact(t, u, fields, search, now);
      case PutDoc(id, value, opts, createOnly) =>
        if PutOutcome(t, id, value, createOnly, now).Stored? {
          PutKeepsSearchable(t, u, id, value, opts, createOnly, now);
        } else {
          PutRefused(t, u, id, value, opts, createOnly, now);
        }
      case DeleteDoc(_) =>
      case GetDoc(_) =>
    }
  }

  /** With search texts up to date, a search finds exactly the live documents of which the text of the
      configured search fields contains the term. */
  lemma SearchIsExact(t: Tables, search: string, now: int, same: Like.Same, id: string)
    requires Searchable(t, now)
    ensures id in Matching(t, search, now, same) <==>
            && Alive(t, id, now)
            && (search == "" ||
                Like.Contains(SearchText(t.docs[id].value, Listing(NamesOf(t.config, Search))), search, same))
  {
    hide SearchText, Listing, NamesOf, Like.LikeMatch, Like.EscapeLike, Like.Contains;
    if Alive(t, id, now) {
      Like.SearchIsContainment(search, t.docs[id].searchText, same);
    }
  }

  // ---------------------------------------------------------------- runs

  datatype Event = Event(op: Op, now: int)

  ghost predicate StepAt(ss: seq<Tables>, events: seq<Event>, i: nat)
    requires |ss| == |events| + 1 && i < |events|
  {
    Step(ss[i], ss[i + 1], events[i].op, events[i].now)
  }

  function TimeOf(events: seq<Event>, start: int, n: nat): int
    requires n <= |events|
  {
    if n == 0 then start else events[n - 1].now
  }

  /** The tables that a run of operations goes through, with time moving forward. */
  ghost predicate Behaviour(ss: seq<Tables>, events: seq<Event>, start: int) {
    && |ss| == |events| + 1
    && (forall i :: 0 <= i < |events| ==> StepAt(ss, events, i))
    && (forall i {:trigger events[i]} :: 0 <= i < |events| ==> TimeOf(events, start, i) <= events[i].now)
  }

  /** Starting from empty tables, at every point of every run each index row names a stored document whose
      configured field normalises to the indexed text. */
  lemma {:induction false} IndexAlwaysSound(ss: seq<Tables>, events: seq<Event>, start: int, n: nat)
    requires Behaviour(ss, events, start) && n <= |events|
    requires ss[0] == Tables(map[], {}, map[])
    ensures Sound(ss[n]) && WellFormed(ss[n])
  {
    hide Step, ValidDocName;
    if n > 0 {
      IndexAlwaysSound(ss, events, start, n - 1);
      assert StepAt(ss, events, n - 1);
      StepKeepsSound(ss[n - 1], ss[n], events[n - 1].op, events[n - 1].now);
      StepKeepsWellFormed(ss[n - 1], ss[n], events[n - 1].op, events[n - 1].now);
    }
  }

  /** And from any configuration on, until a write leaves a gap, each live document has all its rows. */
  lemma {:induction false} CompleteSinceConfigure(ss: seq<Tables>, events: seq<Event>, start: int, m: nat, n: nat)
    requires Behaviour(ss, events, start) && m < n <= |events|
    requires ss[0] == Tables(map[], {}, map[])
    requires events[m].op.Configure?
    requires forall i :: m < i < n ==> Harmless(ss[i], events[i].op, events[i].now)
    ensures Complete(ss[n], TimeOf(events, start, n))
  {
    hide Configured, Put, Removed, LookedUp, Harmless, Sound, Complete, ValidDocName;
    var (t, u, op, now) := (ss[n - 1], ss[n], events[n - 1].op, events[n - 1].now);
    IndexAlwaysSound(ss, events, start, n - 1);
    assert StepAt(ss, events, n - 1);
    if n == m + 1 {
      ConfigureMakesExact(t, u, op.fields, op.search, now);
    } else {
      CompleteSinceConfigure(ss, events, start, m, n - 1);
      CompleteLater(t, TimeOf(events, start, n - 1), now);
      StepKeepsComplete(t, u, op, now);
    }
  }

  /** The configured fields stay configured until the next configuration. */
  lemma {:induction false} FieldsStay(ss: seq<Tables>, events: seq<Event>, start: int, m: nat, n: nat)
    requires Behaviour(ss, events, start) && m < n <= |events|
    requires ss[0] == Tables(map[], {}, map[])
    requires events[m].op.Configure? && forall i :: m < i < n ==> !events[i].op.Configure?
    ensures ValidNames(events[m].op.fields) <= NamesOf(ss[n].config, Field)
  {
    hide Put, Removed, LookedUp, Configured, ValidNames, ConfigOf, Sound;
    var (t, u, op, now) := (ss[n - 1], ss[n], events[n - 1].op, events[n - 1].now);
    assert StepAt(ss, events, n - 1);
    if n == m + 1 {
      IndexAlwaysSound(ss, events, start, m);
      ConfigTaken(t, u, op.fields, op.search, now);
    } else {
      FieldsStay(ss, events, start, m, n - 1);
      ConfigGrows(t, u, op, now);
    }
  }

  lemma ConfigTaken(t: Tables, u: Tables, fields: seq<string>, search: seq<string>, now: int)
    requires WellFormed(t) && Configured(t, u, fields, search, now)
    ensures ValidNames(fields) <= NamesOf(u.config, Field)
  {
    hide ValidNames, ConfigOf, Listing, SearchText, FieldText, Parse, ValidDocName;
    forall f | f in ValidNames(fields)
      ensures f in NamesOf(u.config, Field)
    {
      ConfiguredNames(fields, search, ConfigRow(Field, f));
    }
  }

  lemma ConfigGrows(t: Tables, u: Tables, op: Op, now: int)
    requires Step(t, u, op, now) && !op.Configure?
    ensures NamesOf(t.config, Field) <= NamesOf(u.config, Field)
  {
    hide ValidNames, ConfigOf, Listing, SearchText, FieldText, Parse;
  }

  /** In particular: between a configuration and the next, writes that name only configured fields, deletions
      and expiry leave the index complete, which can be told from the calls alone. */
  lemma CompleteWithoutNewFields(ss: seq<Tables>, events: seq<Event>, start: int, m: nat, n: nat)
    requires Behaviour(ss, events, start) && m < n <= |events|
    requires ss[0] == Tables(map[], {}, map[])
    requires events[m].op.Configure? && forall i :: m < i < n ==> !events[i].op.Configure?
    requires forall i :: m < i < n && events[i].op.PutDoc? ==>
               ValidNames(events[i].op.opts.indexed) <= ValidNames(events[m].op.fields)
    ensures Complete(ss[n], TimeOf(events, start, n))
  {
    hide StepAt, ValidNames, NamesOf, LeavesGap, Complete;
    forall i | m < i < n
      ensures Harmless(ss[i], events[i].op, events[i].now)
    {
      FieldsStay(ss, events, start, m, i);
      if events[i].op.PutDoc? {
        NoNewFieldNoGap(ss[i], events[i].op.id, events[i].op.opts, events[i].now);
      }
    }
    CompleteSinceConfigure(ss, events, start, m, n);
  }

  /** Calling the operations of a collection one after another goes through a behaviour. */
  method RunAll(c: Collection, events: seq<Event>, start: int) returns (ss: seq<Tables>)
    requires WellFormed(c.Now())
    requires forall i {:trigger events[i]} :: 0 <= i < |events| ==> TimeOf(events, start, i) <= events[i].now
    modifies c
    ensures Behaviour(ss, events, start)
    ensures ss[0] == old(c.Now()) && ss[|events|] == c.Now() && WellFormed(c.Now())
  {
    hide WellFormed, Configured, Put, Removed, LookedUp;
    ss := [c.Now()];
    for i := 0 to |events|
      invariant |ss| == i + 1 && ss[0] == old(c.Now()) && ss[i] == c.Now() && WellFormed(c.Now())
      invariant forall j :: 0 <= j < i ==> Step(ss[j], ss[j + 1], events[j].op, events[j].now)
    {
      var now := events[i].now;
      match events[i].op {
        case Configure(fields, search) =>
          var ok := c.ConfigureIndexes(fields, search, now);
        case PutDoc(id, value, opts, createOnly) =>
          var outcome := c.PutDoc(id, value, opts, createOnly, now);
        case DeleteDoc(id) =>
          var deleted := c.DeleteDoc(id);
        case GetDoc(id) =>
          var row := c.GetLiveDocRow(id, now);
      }
      StepKeepsWellFormed(ss[i], c.Now(), events[i].op, now);
      ss := ss + [c.Now()];
    }
  }

  // ---------------------------------------------------------------- queries

  /** What a filtered query is meant to return: the live documents that the search term matches and whose
      field normalises to the value. */
  function Wanted(t: Tables, filter: WhereFilter, search: string, now: int, same: Like.Same): set<string> {
    set id | id in Matching(t, search, now, same) && FieldText(t.docs[id].value, filter.field) == Some(filter.value)
  }

  lemma WantedIsIndexed(t: Tables, filter: WhereFilter, search: string, now: int, same: Like.Same)
    requires Sound(t) && Complete(t, now) && ConfigRow(Field, filter.field) in t.config
    ensures Wanted(t, filter, search, now, same) <= IndexedIds(t, filter)
    ensures forall id :: id in IndexedIds(t, filter) ==>
              (id in Wanted(t, filter, search, now, same) <==> id in Matching(t, search, now, same))
  {
    hide FieldText, MatchesSearch;
    forall id | id in Wanted(t, filter, search, now, same)
      ensures id in IndexedIds(t, filter)
    {
      var key := IndexKey(filter.field, Sha256(filter.value), id);
      assert Indexable(t.docs[id].value, key);
      assert key in t.index;
    }
  }

  lemma FilterAlike(q: seq<string>, a: set<string>, b: set<string>)
    requires forall i :: 0 <= i < |q| ==> (q[i] in a <==> q[i] in b)
    ensures Filter(q, a) == Filter(q, b)
  {
    if q != [] {
      FilterAlike(q[..|q| - 1], a, b);
    }
  }

  /** Given the index invariant, a filtered page is the page of the wanted documents if and only if every
      indexed id it looked at is wanted, or no wanted one lies beyond those. */
  lemma WherePageExact(
      t: Tables, filter: WhereFilter, search: string, cursor: string, limit: int, now: int, same: Like.Same)
    requires Sound(t) && Complete(t, now) && ConfigRow(Field, filter.field) in t.config
    ensures
      var wanted := Wanted(t, filter, search, now, same);
      var looked := Page(IndexedIds(t, filter), cursor, NormalizeDocLimit(limit) + 1);
      IndexPage(t, filter, search, cursor, limit, now, same) == QueryPage(wanted, cursor, limit) <==>
        (forall i :: 0 <= i < |looked| ==> looked[i] in wanted) || !SomeBeyond(wanted, cursor, looked)
  {
    hide Sound, Complete, IndexedIds, Matching, Wanted, Page, LexLess, QueryPage, SomeBeyond;
    var n := NormalizeDocLimit(limit);
    var wanted := Wanted(t, filter, search, now, same);
    var looked := Page(IndexedIds(t, filter), cursor, n + 1);
    WantedIsIndexed(t, filter, search, now, same);
    PageSound(IndexedIds(t, filter), cursor, n + 1);
    FilterAlike(looked, wanted, Matching(t, search, now, same));
    FilteredPageExact(IndexedIds(t, filter), wanted, cursor, limit);
  }

  ghost predicate NoneExpired(t: Tables, now: int) {
    forall id :: id in t.docs ==> !Passed(t.docs[id].expiresAt, now)
  }

  /** Without a search term, and with no expired document in the collection, every page is right. */
  lemma WherePageIsScan(t: Tables, filter: WhereFilter, cursor: string, limit: int, now: int, same: Like.Same)
    requires Sound(t) && Complete(t, now) && ConfigRow(Field, filter.field) in t.config && NoneExpired(t, now)
    ensures IndexPage(t, filter, "", cursor, limit, now, same) ==
        QueryPage(Wanted(t, filter, "", now, same), cursor, limit)
  {
    hide Page, LexLess, QueryPage, IndexPage, Complete, FieldText;
    WherePageExact(t, filter, "", cursor, limit, now, same);
    WantedIsIndexed(t, filter, "", now, same);
    PageSound(IndexedIds(t, filter), cursor, NormalizeDocLimit(limit) + 1);
  }

  datatype Glance = Glance(t: Tables, now: int)

  /** Following NextCursor through filtered pages, each on the tables of its moment. */
  function WhereAll(moments: seq<Glance>, filter: WhereFilter, cursor: string, limit: int, same: Like.Same): DocRun {
    if moments == [] then DocRun([], 0, false)
    else
      var page := IndexPage(moments[0].t, filter, "", cursor, limit, moments[0].now, same);
      if !page.hasMore then DocRun(page.docs, 1, true)
      else
        var rest := WhereAll(moments[1..], filter, page.nextCursor, limit, same);
        DocRun(page.docs + rest.docs, 1 + rest.pages, rest.done)
  }

  function WantedAt(moments: seq<Glance>, filter: WhereFilter, same: Like.Same): seq<Snapshot> {
    seq(|moments|, i requires 0 <= i < |moments| => Wanted(moments[i].t, filter, "", moments[i].now, same))
  }

  ghost predicate Good(g: Glance, filter: WhereFilter) {
    Sound(g.t) && Complete(g.t, g.now) && ConfigRow(Field, filter.field) in g.t.config && NoneExpired(g.t, g.now)
  }

  lemma {:induction false} WhereAllIsQueryAll(
      moments: seq<Glance>, filter: WhereFilter, cursor: string, limit: int, same: Like.Same)
    requires forall i :: 0 <= i < |moments| ==> Good(moments[i], filter)
    ensures WhereAll(moments, filter, cursor, limit, same) == QueryAll(WantedAt(moments, filter, same), cursor, limit)
  {
    hide QueryPage, IndexPage, Wanted, Sound, Complete, NoneExpired;
    if moments != [] {
      var g := moments[0];
      assert Good(g, filter);
      WherePageIsScan(g.t, filter, cursor, limit, g.now, same);
      assert WantedAt(moments, filter, same)[1..] == WantedAt(moments[1..], filter, same);
      var page := IndexPage(g.t, filter, "", cursor, limit, g.now, same);
      if page.hasMore {
        WhereAllIsQueryAll(moments[1..], filter, page.nextCursor, limit, same);
      }
    }
  }

  /** Paging through a filter, with documents coming and going between the pages, lists ids in strictly
      ascending order and misses no document above the cursor that is wanted on every page. */
  lemma WherePagingComplete(moments: seq<Glance>, filter: WhereFilter, cursor: string, limit: int, same: Like.Same)
    requires forall i :: 0 <= i < |moments| ==> Good(moments[i], filter)
    ensures
      var run := WhereAll(moments, filter, cursor, limit, same);
      var snaps := WantedAt(moments, filter, same);
      && run.pages <= |moments| && Ascending(run.docs, LexLess)
      && (forall i :: 0 <= i < |run.docs| ==> exists p :: 0 <= p < run.pages && run.docs[i] in snaps[p])
      && (forall k :: run.done && LexLess(cursor, k) && (forall p :: 0 <= p < run.pages ==> k in snaps[p]) ==>
            k in run.docs)
  {
    hide LexLess, Good;
    WhereAllIsQueryAll(moments, filter, cursor, limit, same);
    var snaps := WantedAt(moments, filter, same);
    DocPagingComplete(snaps, cursor, limit);
    var run := WhereAll(moments, filter, cursor, limit, same);
    forall i | 0 <= i < |run.docs|
      ensures exists p :: 0 <= p < run.pages && run.docs[i] in snaps[p]
    {
      var p :| 0 <= p < run.pages && run.docs[i] in snaps[p];
    }
    forall k | run.done && LexLess(cursor, k) && forall p :: 0 <= p < run.pages ==> k in snaps[p]
      ensures k in run.docs
    {
    }
  }

  // ---------------------------------------------------------------- where the promises end

  /** Document "a" was written before field "f" was indexed; writing "b" with an index on "f" leaves "a"
      out, and a query for the value they share finds only "b". */
  lemma NewFieldHidesOlder(t: Tables, u: Tables, now: int, same: Like.Same)
    requires t == Tables(map["a" := DocRow(Obj(map["f" := Text("x")]), "", None, 1)], {}, map[])
    requires Put(t, u, "b", Obj(map["f" := Text("x")]), WriteOptions(["f"], [], 0), true, now)
    ensures Sound(t) && Complete(t, now) && Sound(u) && !Complete(u, now)
    ensures
      var filter := WhereFilter("f", "eq", "x");
      IndexedIds(u, filter) == {"b"} && Wanted(u, filter, "", now, same) == {"a", "b"}
  {
    hide Put, Sound, Complete;
    var value := Obj(map["f" := Text("x")]);
    GapOpens(t, u, now);
    assert FieldText(value, "f") == Some("x");
    assert IndexKey("f", Sha256("x"), "b").id == "b";
    assert u.docs.Keys == {"a", "b"} && u.docs["a"].value == value && u.docs["b"].value == value;
  }

  lemma GapOpens(t: Tables, u: Tables, now: int)
    requires t == Tables(map["a" := DocRow(Obj(map["f" := Text("x")]), "", None, 1)], {}, map[])
    requires Put(t, u, "b", Obj(map["f" := Text("x")]), WriteOptions(["f"], [], 0), true, now)
    ensures Sound(t) && Complete(t, now) && Sound(u) && !Complete(u, now)
    ensures u.docs.Keys == {"a", "b"} && Alive(u, "a", now) && Alive(u, "b", now)
    ensures u.docs["a"].value == u.docs["b"].value == Obj(map["f" := Text("x")])
    ensures IndexKey("f", Sha256("x"), "b") in u.index
    ensures forall key :: key in u.index && key.field == "f" && key.hash == Sha256("x") ==> key.id == "b"
  {
    hide ValidNames, ConfigOf, SearchText, Listing;
    var opts, value := WriteOptions(["f"], [], 0), Obj(map["f" := Text("x")]);
    OnlyName();
    ConfiguredNames(opts.indexed, opts.search, ConfigRow(Field, "f"));
    StepKeepsSound(t, u, PutDoc("b", value, opts, true), now);
    var a, b := IndexKey("f", Sha256("x"), "a"), IndexKey("f", Sha256("x"), "b");
    assert Indexable(value, a) && Indexable(value, b);
    assert LeavesGap(t, "b", opts, now);
    PutKeepsComplete(t, u, "b", value, opts, true, now);
  }

  /** The same with search fields: writing "b" with a search on "f" leaves the text of "a" as it was, so a
      search for what both hold looks at nothing of "a". */
  lemma NewSearchFieldHidesOlder(t: Tables, u: Tables, now: int)
    requires t == Tables(map["a" := DocRow(SHARED, "", None, 1)], {}, map[])
    requires Put(t, u, "b", SHARED, WriteOptions([], ["f"], 0), true, now)
    ensures Searchable(t, now) && !Searchable(u, now)
    ensures u.docs["a"].searchText == "" && u.docs["b"].searchText == "x"
  {
    hide Listing;
    var opts := WriteOptions([], ["f"], 0);
    OnlyName();
    var none: set<string> := {};
    assert NamesOf(t.config, Search) == none;
    ShortListings();
    assert SearchText(SHARED, []) == "";
    assert SearchParts(SHARED.fields, ["f"][..0]) == [];
    assert SearchText(SHARED, ["f"]) == "x";
    assert NamesOf(t.config, Search) + ValidNames(opts.search) == {"f"};
    assert Alive(t, "a", now) && t.docs["a"].value == SHARED;
    ConfigUnion(t.config, opts.indexed, opts.search);
    assert StalesSearch(t, "b", opts, now);
    PutKeepsSearchable(t, u, "b", SHARED, opts, true, now);
  }

  lemma ShortListings()
    ensures Listing({}) == [] && Listing({"f"}) == ["f"]
  {
    LexIsStrictTotal();
    SortedUnique([], {}, LexLess);
    SortedUnique(["f"], {"f"}, LexLess);
  }

  lemma OnlyName()
    ensures ValidNames(["f"]) == {"f"}
  {
    assert TrimSpace("f") == "f" && ValidDocName("f") && "f" in ["f"];
  }

  lemma ThreeIds()
    ensures Page({"a", "b", "c"}, "", 2) == ["a", "b"]
  {
    var ids := {"a", "b", "c"};
    LexIsStrictTotal();
    assert LexLess("", "a") && LexLess("", "b") && LexLess("", "c");
    assert LexLess("a", "b") && LexLess("b", "c") && LexLess("a", "c");
    assert Above(ids, "") == ids;
    SortedUnique(["a", "b", "c"], ids, LexLess);
  }

  const SHARED := Obj(map["f" := Text("x")])

  const BY_F := WhereFilter("f", "eq", "x")

  /** One more document with the shared value, in a collection indexed by "f". */
  lemma SharedDocAdded(t: Tables, u: Tables, id: string, ttl: int, now: int)
    requires WellFormed(t) && Sound(t) && ConfigRow(Field, "f") in t.config && id !in t.docs
    requires Put(t, u, id, SHARED, WriteOptions([], [], ttl), true, now)
    ensures WellFormed(u) && Sound(u) && ConfigRow(Field, "f") in u.config
    ensures u.docs.Keys == t.docs.Keys + {id} && forall j :: j in t.docs ==> u.docs[j] == t.docs[j]
    ensures u.docs[id].value == SHARED && u.docs[id].expiresAt == if ttl > 0 then Some(now + ttl) else None
    ensures IndexedIds(u, BY_F) == IndexedIds(t, BY_F) + {id}
  {
    hide ValidNames, ConfigOf, SearchText, Listing, ValidDocName;
    var op := PutDoc(id, SHARED, WriteOptions([], [], ttl), true);
    StepKeepsSound(t, u, op, now);
    StepKeepsWellFormed(t, u, op, now);
    var key := IndexKey("f", Sha256("x"), id);
    assert Indexable(SHARED, key) && key in u.index;
    forall j | j in IndexedIds(t, BY_F)
      ensures j in IndexedIds(u, BY_F)
    {
      var other := IndexKey("f", Sha256("x"), j);
      assert other in t.index && other in u.index;
    }
  }

  /** With a limit of one, a page over "a", "b" and "c" of which "b" is past its expiry. */
  lemma PageOverExpired(t: Tables, same: Like.Same)
    requires t.docs.Keys == {"a", "b", "c"} && IndexedIds(t, BY_F) == {"a", "b", "c"}
    requires t.docs["a"].value == t.docs["b"].value == t.docs["c"].value == SHARED
    requires t.docs["a"].expiresAt == t.docs["c"].expiresAt == None && t.docs["b"].expiresAt == Some(5)
    ensures Wanted(t, BY_F, "", 10, same) == {"a", "c"}
    ensures IndexPage(t, BY_F, "", "", 1, 10, same) == QueryResult(["a"], "", false)
  {
    hide Page, IndexedIds;
    assert FieldText(SHARED, "f") == Some("x");
    var keep := Matching(t, "", 10, same);
    assert keep == {"a", "c"};
    ThreeIds();
    assert ["a", "b"][..1] == ["a"] && ["a"][..0] == [];
    assert Filter(["a"], keep) == ["a"];
    assert Filter(["a", "b"], keep) == ["a"];
  }

  lemma StartsIndexed(t: Tables, u: Tables)
    requires t == Tables(map[], {}, map[]) && Configured(t, u, ["f"], [], 0)
    ensures WellFormed(u) && Sound(u) && ConfigRow(Field, "f") in u.config
    ensures u.docs == map[] && IndexedIds(u, BY_F) == {}
  {
    hide ValidNames, ConfigOf, SearchText, Listing, ValidDocName;
    OnlyName();
    ConfiguredNames(["f"], [], ConfigRow(Field, "f"));
    StepKeepsWellFormed(t, u, Configure(["f"], []), 0);
    ConfigureMakesExact(t, u, ["f"], [], 0);
    assert u.docs.Keys == {};
  }

  /** Three documents with the same value are stored, the second for five ticks.  At ten, before anybody has
      stumbled over it, the first page of one ends the listing, and the third document is never listed. */
  method ExpiredEndsPaging(same: Like.Same) returns (first: QueryReply, t: Tables)
    ensures first == Found(QueryResult(["a"], "", false))
    ensures Wanted(t, BY_F, "", 10, same) == {"a", "c"}
  {
    hide Put, Configured, WellFormed, Sound, IndexedIds, IndexPage, Wanted;
    var c := new Collection();
    ghost var t0 := c.Now();
    var ok := c.ConfigureIndexes(["f"], [], 0);
    ghost var t1 := c.Now();
    StartsIndexed(t0, t1);
    var r := c.PutDoc("a", SHARED, WriteOptions([], [], 0), true, 0);
    ghost var t2 := c.Now();
    SharedDocAdded(t1, t2, "a", 0, 0);
    r := c.PutDoc("b", SHARED, WriteOptions([], [], 5), true, 0);
    ghost var t3 := c.Now();
    SharedDocAdded(t2, t3, "b", 5, 0);
    r := c.PutDoc("c", SHARED, WriteOptions([], [], 0), true, 0);
    t := c.Now();
    SharedDocAdded(t3, t, "c", 0, 0);
    PageOverExpired(t, same);
    first := c.QueryDocs(QueryOptions(Some(BY_F), "", 1, ""), 10, same);
  }
}
