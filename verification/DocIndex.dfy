/** Documents and their index tables, in internal/store/sqlstore.  Every statement of these operations is
    restricted to one (db, collection), so the model is of the rows that belong to one collection. */
module DocIndex {
  import opened Decimal
  import opened StoreTypes
  import opened Ordering
  import opened Paging
  import opened FilteredPaging
  import Like
  import Resp

  // ---------------------------------------------------------------- documents

  /** A document's bytes, as encoding/json sees them.  A number is given by its shortest decimal text. */
  datatype Json =
    | Malformed
    | Null
    | Bool(b: bool)
    | Num(text: string)
    | Text(s: string)
    | Arr
    | Obj(fields: map<string, Json>)

  /** Unmarshal into a map: `null` is taken for an object without fields. */
  function Parse(value: Json): Option<map<string, Json>> {
    match value
    case Obj(fields) => Some(fields)
    case Null => Some(map[])
    case _ => None
  }

  function NormalizeScalar(v: Json): Option<string> {
    match v
    case Text(s) => Some(s)
    case Num(text) => Some(text)
    case Bool(b) => Some(if b then "true" else "false")
    case Null => Some("null")
    case _ => None
  }

  /** The text under which a document is indexed at a field, if it is. */
  function FieldText(value: Json, field: string): Option<string> {
    var obj := Parse(value);
    if obj.Some? && field in obj.value then NormalizeScalar(obj.value[field]) else None
  }

  function SearchParts(obj: map<string, Json>, fields: seq<string>): seq<string> {
    if fields == [] then []
    else
      var n := |fields| - 1;
      var f := fields[n];
      SearchParts(obj, fields[..n]) + if f in obj && obj[f].Text? && obj[f].s != "" then [obj[f].s] else []
  }

  function Join(parts: seq<string>): string {
    if parts == [] then ""
    else if |parts| == 1 then parts[0]
    else parts[0] + " " + Join(parts[1..])
  }

  function SearchText(value: Json, fields: seq<string>): string {
    var obj := Parse(value);
    if obj.Some? then Join(SearchParts(obj.value, fields)) else ""
  }

  // ---------------------------------------------------------------- field names

  function TrimLeft(s: string): string {
    if s != "" && Resp.IsSpace(s[0]) then TrimLeft(s[1..]) else s
  }

  function TrimRight(s: string): string {
    if s != "" && Resp.IsSpace(s[|s| - 1]) then TrimRight(s[..|s| - 1]) else s
  }

  function TrimSpace(s: string): string {
    TrimRight(TrimLeft(s))
  }

  predicate NameChar(c: char) {
    'a' <= c <= 'z' || 'A' <= c <= 'Z' || '0' <= c <= '9' || c == '_' || c == '-'
  }

  predicate ValidDocName(v: string) {
    v != "" && |v| <= 128 && forall i :: 0 <= i < |v| ==> NameChar(v[i])
  }

  function ValidNames(fields: seq<string>): set<string> {
    set f | f in fields && ValidDocName(TrimSpace(f)) :: TrimSpace(f)
  }

  lemma ValidNameIsTrimmed(v: string)
    requires ValidDocName(v)
    ensures TrimSpace(v) == v
  {
    assert NameChar(v[0]) && NameChar(v[|v| - 1]);
  }

  lemma ValidNamesNext(fields: seq<string>, i: nat)
    requires i < |fields|
    ensures
      var f := TrimSpace(fields[i]);
      ValidNames(fields[..i + 1]) == ValidNames(fields[..i]) + if ValidDocName(f) then {f} else {}
  {
    hide TrimSpace, ValidDocName;
    assert fields[..i + 1] == fields[..i] + [fields[i]];
  }

  lemma ValidNamesConcat(a: seq<string>, b: seq<string>)
    ensures ValidNames(a + b) == ValidNames(a) + ValidNames(b)
  {
    hide TrimSpace, ValidDocName;
  }

  /** A list of valid names stays what it is. */
  lemma ValidNamesOfListing(names: set<string>)
    requires forall f :: f in names ==> ValidDocName(f)
    ensures ValidNames(Listing(names)) == names
  {
    hide TrimSpace, ValidDocName;
    LexIsStrictTotal();
    SortedIsSorted(names, LexLess);
    forall f | f in names
      ensures TrimSpace(f) == f
    {
      ValidNameIsTrimmed(f);
    }
  }

  /** The trimmed, valid names among the given ones, each once, in ascending order. */
  method UniqueValidFields(fields: seq<string>) returns (out: seq<string>)
    ensures out == Listing(ValidNames(fields))
  {
    hide TrimSpace, ValidDocName, Sorted, LexLess;
    var seen: set<string> := {};
    out := [];
    for i := 0 to |fields|
      invariant seen == ValidNames(fields[..i])
      invariant |out| == |seen| && forall f :: f in out <==> f in seen
    {
      ValidNamesNext(fields, i);
      var field := TrimSpace(fields[i]);
      if !ValidDocName(field) {
        continue;
      }
      if field in seen {
        continue;
      }
      seen := seen + {field};
      out := out + [field];
    }
    assert fields[..|fields|] == fields;
    out := SortStrings(out, seen);
  }

  /** sort.Strings on a list without duplicates. */
  method SortStrings(q: seq<string>, ghost elements: set<string>) returns (out: seq<string>)
    requires |q| == |elements| && forall f :: f in q <==> f in elements
    ensures out == Listing(elements)
    ensures multiset(out) == multiset(q)
  {
    hide Sorted, LexLess;
    var distinct := set f | f in q;
    assert distinct == elements;
    LexIsStrictTotal();
    SortedIsSorted(distinct, LexLess);
    out := Listing(distinct);
    SameMultiset(out, distinct);
    SameMultiset(q, distinct);
  }

  /** As many places as elements: every element stands exactly once. */
  lemma {:induction false} SameMultiset(q: seq<string>, s: set<string>)
    requires |q| == |s| && forall f :: f in q <==> f in s
    ensures multiset(q) == multiset(s)
  {
    if q != [] {
      var n := |q| - 1;
      assert q == q[..n] + [q[n]];
      if q[n] in q[..n] {
        TooFewPlaces(q[..n], s);
      }
      SameMultiset(q[..n], s - {q[n]});
      assert s == (s - {q[n]}) + {q[n]};
    }
  }

  lemma {:induction false} TooFewPlaces(q: seq<string>, s: set<string>)
    requires forall f :: f in s ==> f in q
    ensures |s| <= |q|
  {
    if q != [] {
      var n := |q| - 1;
      assert q == q[..n] + [q[n]];
      TooFewPlaces(q[..n], s - {q[n]});
    }
  }

  method Difference(next: seq<string>, prior: seq<string>) returns (out: seq<string>)
    requires forall i, j :: 0 <= i < j < |next| ==> next[i] != next[j]
    ensures forall f :: f in out <==> f in next && f !in prior
    ensures forall i, j :: 0 <= i < j < |out| ==> out[i] != out[j]
  {
    var have := set f | f in prior;
    out := [];
    for i := 0 to |next|
      invariant forall f :: f in out <==> f in next[..i] && f !in prior
      invariant forall a, b :: 0 <= a < b < |out| ==> out[a] != out[b]
    {
      if next[i] !in have {
        out := out + [next[i]];
      }
    }
  }

  // ---------------------------------------------------------------- tables

  datatype Kind = Field | Search

  /** redge_doc_index_config, all of it primary key. */
  datatype ConfigRow = ConfigRow(kind: Kind, field: string)

  /** SHA-256, taken to be injective. */
  datatype Digest = Sha256(of: string)

  /** The primary key of redge_doc_indexes; the row also holds the text itself. */
  datatype IndexKey = IndexKey(field: string, hash: Digest, id: string)

  datatype IndexRow = IndexRow(key: IndexKey, text: string)

  /** redge_docs. */
  datatype DocRow = DocRow(value: Json, searchText: string, expiresAt: Option<int>, version: int)

  datatype Tables = Tables(docs: map<string, DocRow>, config: set<ConfigRow>, index: map<IndexKey, string>)

  predicate Alive(t: Tables, id: string, now: int) {
    id in t.docs && !Passed(t.docs[id].expiresAt, now)
  }

  function NamesOf(config: set<ConfigRow>, kind: Kind): set<string> {
    set r | r in config && r.kind == kind :: r.field
  }

  /** The document's field normalises to the text behind the digest. */
  predicate Indexable(value: Json, key: IndexKey) {
    FieldText(value, key.field) == Some(key.hash.of)
  }

  // ---------------------------------------------------------------- what the index promises

  /** Each index row names a stored document whose configured field normalises to the indexed text. */
  ghost predicate Sound(t: Tables) {
    forall key :: key in t.index ==>
      && key.id in t.docs
      && ConfigRow(Field, key.field) in t.config
      && Indexable(t.docs[key.id].value, key)
      && t.index[key] == key.hash.of
  }

  /** Each live document has a row for each configured field that normalises. */
  ghost predicate Complete(t: Tables, now: int) {
    forall key: IndexKey ::
      Alive(t, key.id, now) && ConfigRow(Field, key.field) in t.config && Indexable(t.docs[key.id].value, key) ==>
        key in t.index
  }

  /** Each live document's search text is that of the configured search fields. */
  ghost predicate Searchable(t: Tables, now: int) {
    forall id :: Alive(t, id, now) ==>
      t.docs[id].searchText == SearchText(t.docs[id].value, Listing(NamesOf(t.config, Search)))
  }

  /** Stored documents parse and configured names are valid. */
  ghost predicate WellFormed(t: Tables) {
    && (forall id :: id in t.docs ==> Parse(t.docs[id].value).Some?)
    && (forall r :: r in t.config ==> ValidDocName(r.field))
  }

  // ---------------------------------------------------------------- what the operations do

  datatype WriteOptions = WriteOptions(indexed: seq<string>, search: seq<string>, ttl: int)

  datatype Outcome = Stored(version: int, created: bool) | Conflict | InvalidRequest

  function ConfigOf(fields: seq<string>, search: seq<string>): set<ConfigRow> {
    (set f | f in ValidNames(fields) :: ConfigRow(Field, f)) + (set f | f in ValidNames(search) :: ConfigRow(Search, f))
  }

  /** ConfigureIndexes: nothing at all if a live document does not parse; otherwise the new configuration
      and, whatever the index held before, exactly the rows that the live documents call for. */
  ghost predicate Configured(t: Tables, u: Tables, fields: seq<string>, search: seq<string>, now: int) {
    if exists id :: Alive(t, id, now) && Parse(t.docs[id].value).None? then u == t
    else
      && u.config == ConfigOf(fields, search)
      && u.docs.Keys == t.docs.Keys
      && (forall id :: id in t.docs ==>
            u.docs[id] == if Alive(t, id, now)
                          then t.docs[id].(searchText := SearchText(t.docs[id].value, Listing(ValidNames(search))))
                          else t.docs[id])
      && (forall key: IndexKey :: key in u.index <==>
            Alive(t, key.id, now) && key.field in ValidNames(fields) && Indexable(t.docs[key.id].value, key))
      && (forall key :: key in u.index ==> u.index[key] == key.hash.of)
  }

  function PutOutcome(t: Tables, id: string, value: Json, createOnly: bool, now: int): Outcome {
    if createOnly && Alive(t, id, now) then Conflict
    else if Parse(value).None? then InvalidRequest
    else if Alive(t, id, now) then Stored(t.docs[id].version + 1, false)
    else Stored(1, true)
  }

  /** PutDoc: nothing at all unless it succeeds; otherwise the configuration grows, the document is
      replaced, and its index rows, and only its, are those that it now calls for. */
  ghost predicate Put(t: Tables, u: Tables, id: string, value: Json, opts: WriteOptions, createOnly: bool, now: int) {
    var outcome := PutOutcome(t, id, value, createOnly, now);
    if !outcome.Stored? then u == t
    else
      var expires := if opts.ttl > 0 then Some(now + opts.ttl)
                     else if Alive(t, id, now) then t.docs[id].expiresAt else None;
      && u.config == t.config + ConfigOf(opts.indexed, opts.search)
      && u.docs == t.docs[id := DocRow(value, SearchText(value, Listing(NamesOf(u.config, Search))), expires,
                                       outcome.version)]
      && (forall key: IndexKey :: key in u.index <==>
            if key.id == id then ConfigRow(Field, key.field) in u.config && Indexable(value, key) else key in t.index)
      && (forall key :: key in u.index ==>
            u.index[key] == if key.id == id then key.hash.of else t.index[key])
  }

  ghost predicate Removed(t: Tables, u: Tables, id: string) {
    u.config == t.config && u.docs == t.docs - {id} && Cleared(t.index, u.index, id)
  }

  /** Looking a document up deletes it if it has expired. */
  ghost predicate LookedUp(t: Tables, u: Tables, id: string, now: int) {
    if id in t.docs && Passed(t.docs[id].expiresAt, now) then Removed(t, u, id) else u == t
  }

  // ---------------------------------------------------------------- queries

  datatype WhereFilter = WhereFilter(field: string, op: string, value: string)

  datatype QueryOptions = QueryOptions(filter: Option<WhereFilter>, search: string, limit: int, cursor: string)

  datatype QueryReply = Found(page: QueryResult) | BadFilter | NotIndexed

  /** "eq" in any case. */
  predicate IsEq(op: string) {
    |op| == 2 && op[0] in "eE" && op[1] in "qQ"
  }

  predicate MatchesSearch(row: DocRow, search: string, same: Like.Same) {
    search == "" || Like.LikeMatch("%" + Like.EscapeLike(search) + "%", row.searchText, '|', same)
  }

  /** The live documents that the search term matches. */
  function Matching(t: Tables, search: string, now: int, same: Like.Same): set<string> {
    set id | id in t.docs && Alive(t, id, now) && MatchesSearch(t.docs[id], search, same)
  }

  function IndexedIds(t: Tables, filter: WhereFilter): set<string> {
    set key | key in t.index && key.field == filter.field && key.hash == Sha256(filter.value) :: key.id
  }

  /** A page through the index: limit + 1 ids first, then the documents among them that are live and match. */
  function IndexPage(
      t: Tables, filter: WhereFilter, search: string, cursor: string, limit: int, now: int, same: Like.Same)
      : QueryResult
  {
    var n := NormalizeDocLimit(limit);
    DocPage(Filter(Page(IndexedIds(t, filter), cursor, n + 1), Matching(t, search, now, same)), n)
  }

  // ---------------------------------------------------------------- the statements of an operation

  /** The index rows that a document calls for, each once: one for each field that normalises. */
  ghost predicate RowsFor(rows: seq<IndexRow>, id: string, value: Json, fields: seq<string>) {
    && (forall i, j :: 0 <= i < j < |rows| ==> rows[i].key != rows[j].key)
    && (forall i :: 0 <= i < |rows| ==>
          && rows[i].key.id == id && rows[i].key.field in fields
          && Indexable(value, rows[i].key) && rows[i].text == rows[i].key.hash.of)
    && (forall key: IndexKey :: key.id == id && key.field in fields && Indexable(value, key) ==>
          exists i :: 0 <= i < |rows| && rows[i].key == key)
  }

  ghost predicate Inserted(before: map<IndexKey, string>, after: map<IndexKey, string>, rows: seq<IndexRow>) {
    && (forall key :: key in after <==> key in before || exists i :: 0 <= i < |rows| && rows[i].key == key)
    && (forall key :: key in before ==> after[key] == before[key])
    && (forall i :: 0 <= i < |rows| ==> rows[i].key in after && after[rows[i].key] == rows[i].text)
  }

  /** What inserting a document's rows does, in terms of the document. */
  lemma InsertedRows(
      before: map<IndexKey, string>, after: map<IndexKey, string>, rows: seq<IndexRow>, id: string, value: Json,
      fields: seq<string>)
    requires RowsFor(rows, id, value, fields) && Inserted(before, after, rows)
    requires forall key :: key in before ==> key.id != id
    ensures forall key: IndexKey :: key in after <==>
              if key.id == id then key.field in fields && Indexable(value, key) else key in before
    ensures forall key :: key in after ==> after[key] == if key.id == id then key.hash.of else before[key]
  {
    hide Indexable;
  }

  /** The rebuilding of the index with the documents in `done` through. */
  ghost predicate Rebuilt(t: Tables, u: Tables, done: set<string>, names: set<string>, texts: seq<string>) {
    && done <= t.docs.Keys == u.docs.Keys
    && (forall id :: id in t.docs ==>
          u.docs[id] == if id in done then t.docs[id].(searchText := SearchText(t.docs[id].value, texts))
                        else t.docs[id])
    && (forall id :: id in done ==> Parse(t.docs[id].value).Some?)
    && (forall key: IndexKey :: key in u.index <==>
          key.id in done && key.field in names && Indexable(t.docs[key.id].value, key))
    && (forall key :: key in u.index ==> u.index[key] == key.hash.of)
  }

  lemma RebuiltNext(
      t: Tables, u: Tables, w: Tables, done: set<string>, names: set<string>, fields: seq<string>,
      texts: seq<string>, id: string, rows: seq<IndexRow>)
    requires Rebuilt(t, u, done, names, texts) && id in t.docs && id !in done
    requires Parse(t.docs[id].value).Some? && RowsFor(rows, id, t.docs[id].value, fields)
    requires forall f :: f in fields <==> f in names
    requires w.docs == u.docs[id := u.docs[id].(searchText := SearchText(t.docs[id].value, texts))]
    requires Inserted(u.index, w.index, rows)
    ensures Rebuilt(t, w, done + {id}, names, texts)
  {
    hide Indexable, SearchText, Parse;
    InsertedRows(u.index, w.index, rows, id, t.docs[id].value, fields);
  }

  lemma RebuiltNone(t: Tables, config: set<ConfigRow>, names: set<string>, texts: seq<string>)
    ensures Rebuilt(t, Tables(t.docs, config, map[]), {}, names, texts)
  {
    hide Indexable, SearchText, Parse;
  }

  lemma RebuiltLeaves(t: Tables, u: Tables, done: set<string>, names: set<string>, texts: seq<string>, id: string)
    requires Rebuilt(t, u, done, names, texts) && id in t.docs && id !in done
    ensures id in u.docs && u.docs[id] == t.docs[id]
  {
    hide Indexable, SearchText, Parse;
  }

  lemma RebuiltFresh(
      t: Tables, u: Tables, done: set<string>, names: set<string>, texts: seq<string>, id: string, value: Json,
      fields: seq<string>, rows: seq<IndexRow>)
    requires Rebuilt(t, u, done, names, texts) && id !in done && RowsFor(rows, id, value, fields)
    ensures forall i :: 0 <= i < |rows| ==> rows[i].key !in u.index
    ensures forall i, j :: 0 <= i < j < |rows| ==> rows[i].key != rows[j].key
  {
    hide Indexable;
  }

  lemma RebuiltAll(t: Tables, u: Tables, live: set<string>, fields: seq<string>, search: seq<string>, now: int)
    requires Rebuilt(t, u, live, ValidNames(fields), Listing(ValidNames(search)))
    requires u.config == ConfigOf(fields, search)
    requires forall id :: id in live <==> Alive(t, id, now)
    ensures Configured(t, u, fields, search, now)
    ensures forall id :: Alive(t, id, now) ==> Parse(t.docs[id].value).Some?
  {
    hide Indexable, ValidNames, ConfigOf, Listing, SearchText, Parse;
  }

  lemma ConfigureFails(t: Tables, id: string, fields: seq<string>, search: seq<string>, now: int)
    requires Alive(t, id, now) && Parse(t.docs[id].value).None?
    ensures Configured(t, t, fields, search, now)
  {
  }

  ghost predicate Cleared(before: map<IndexKey, string>, after: map<IndexKey, string>, id: string) {
    && (forall key: IndexKey :: key in after <==> key in before && key.id != id)
    && (forall key :: key in after ==> after[key] == before[key])
  }

  lemma ClearedIsFresh(
      before: map<IndexKey, string>, after: map<IndexKey, string>, id: string, value: Json, fields: seq<string>,
      rows: seq<IndexRow>)
    requires Cleared(before, after, id) && RowsFor(rows, id, value, fields)
    ensures forall i :: 0 <= i < |rows| ==> rows[i].key !in after
    ensures forall i, j :: 0 <= i < j < |rows| ==> rows[i].key != rows[j].key
  {
    hide Indexable;
  }

  lemma PutFails(t: Tables, id: string, value: Json, opts: WriteOptions, createOnly: bool, now: int)
    ensures !PutOutcome(t, id, value, createOnly, now).Stored? ==> Put(t, t, id, value, opts, createOnly, now)
  {
  }

  /** The index with one document's rows replaced by those it calls for. */
  ghost predicate Reindexed(
      before: map<IndexKey, string>, after: map<IndexKey, string>, id: string, value: Json, fields: seq<string>)
  {
    && (forall key: IndexKey :: key in after <==>
          if key.id == id then key.field in fields && Indexable(value, key) else key in before)
    && (forall key :: key in after ==> after[key] == if key.id == id then key.hash.of else before[key])
  }

  lemma ClearedAndInserted(
      before: map<IndexKey, string>, bare: map<IndexKey, string>, after: map<IndexKey, string>,
      id: string, value: Json, fields: seq<string>, rows: seq<IndexRow>)
    requires Cleared(before, bare, id) && RowsFor(rows, id, value, fields) && Inserted(bare, after, rows)
    ensures Reindexed(before, after, id, value, fields)
  {
    hide Indexable, RowsFor, Inserted;
    InsertedRows(bare, after, rows, id, value, fields);
  }

  /** PutDoc's statements, one after another, do what Put says. */
  lemma PutDone(
      t: Tables, looked: Tables, u: Tables, fields: seq<string>,
      id: string, value: Json, opts: WriteOptions, createOnly: bool, now: int, row: DocRow)
    requires PutOutcome(t, id, value, createOnly, now) == Stored(row.version, !Alive(t, id, now))
    requires LookedUp(t.(config := u.config), looked, id, now)
    requires u.config == t.config + ConfigOf(opts.indexed, opts.search) && fields == Listing(NamesOf(u.config, Field))
    requires row.value == value && row.searchText == SearchText(value, Listing(NamesOf(u.config, Search)))
    requires row.expiresAt == if opts.ttl > 0 then Some(now + opts.ttl)
                              else if Alive(t, id, now) then t.docs[id].expiresAt else None
    requires u.docs == looked.docs[id := row] && Reindexed(looked.index, u.index, id, value, fields)
    ensures Put(t, u, id, value, opts, createOnly, now)
  {
    hide Indexable, Listing, ConfigOf, SearchText, Parse;
    ListingIsDistinct(NamesOf(u.config, Field));
    assert u.docs == t.docs[id := row];
    forall key: IndexKey
      ensures key.field in fields <==> ConfigRow(Field, key.field) in u.config
    {
    }
  }

  class Collection {
    var docs: map<string, DocRow>
    var config: set<ConfigRow>
    var index: map<IndexKey, string>

    constructor ()
      ensures Now() == Tables(map[], {}, map[])
    {
      docs, config, index := map[], {}, map[];
    }

    function Now(): Tables
      reads this
    {
      Tables(docs, config, index)
    }

    // ------------------------------------------------------------ inserts
    // An INSERT fails on a duplicate primary key.  The preconditions say that there is none; they are
    // proved wherever the operations below insert.

    method InsertConfig(kind: Kind, names: seq<string>)
      requires forall i :: 0 <= i < |names| ==> ConfigRow(kind, names[i]) !in config
      requires forall i, j :: 0 <= i < j < |names| ==> names[i] != names[j]
      modifies this`config
      ensures config == old(config) + set f | f in names :: ConfigRow(kind, f)
    {
      for i := 0 to |names|
        invariant config == old(config) + set f | f in names[..i] :: ConfigRow(kind, f)
      {
        assert ConfigRow(kind, names[i]) !in config;
        config := config + {ConfigRow(kind, names[i])};
        assert names[..i + 1] == names[..i] + [names[i]];
      }
      assert names[..|names|] == names;
    }

    method InsertIndex(rows: seq<IndexRow>)
      requires forall i :: 0 <= i < |rows| ==> rows[i].key !in index
      requires forall i, j :: 0 <= i < j < |rows| ==> rows[i].key != rows[j].key
      modifies this`index
      ensures Inserted(old(index), index, rows)
    {
      for i := 0 to |rows|
        invariant forall key :: key in index <==> key in old(index) || exists j :: 0 <= j < i && rows[j].key == key
        invariant forall key :: key in old(index) ==> index[key] == old(index)[key]
        invariant forall j :: 0 <= j < i ==> rows[j].key in index && index[rows[j].key] == rows[j].text
      {
        assert rows[i].key !in index;
        index := index[rows[i].key := rows[i].text];
      }
    }

    method DeleteIndexOf(id: string)
      modifies this`index
      ensures Cleared(old(index), index, id)
    {
      index := map key | key in index && key.id != id :: index[key];
    }

    // ------------------------------------------------------------ configuration

    /** One kind of the stored configuration, normalised. */
    method ReadConfig(kind: Kind) returns (names: seq<string>)
      requires WellFormed(Now())
      ensures names == Listing(NamesOf(config, kind))
    {
      hide ValidDocName;
      names := UniqueValidFields(Listing(NamesOf(config, kind)));
      ValidNamesOfListing(NamesOf(config, kind));
    }

    /** The new configuration rows of one kind, after merging in `more`. */
    method MergeKind(kind: Kind, more: seq<string>) returns (current: seq<string>, next: seq<string>)
      requires WellFormed(Now())
      ensures current == Listing(NamesOf(config, kind))
      ensures next == Listing(NamesOf(config, kind) + ValidNames(more))
    {
      hide ValidDocName, TrimSpace, LexLess, Sorted;
      current := ReadConfig(kind);
      next := UniqueValidFields(current + more);
      ValidNamesConcat(current, more);
      ValidNamesOfListing(NamesOf(config, kind));
    }

    method AddConfig(kind: Kind, current: seq<string>, next: seq<string>, ghost names: set<string>)
      requires current == Listing(NamesOf(config, kind)) && next == Listing(NamesOf(config, kind) + names)
      modifies this`config
      ensures config == old(config) + set f | f in names :: ConfigRow(kind, f)
    {
      hide LexLess, Sorted;
      ListingIsDistinct(NamesOf(config, kind) + names);
      ListingIsDistinct(NamesOf(config, kind));
      var added := Difference(next, current);
      forall i | 0 <= i < |added|
        ensures ConfigRow(kind, added[i]) !in config
      {
        assert added[i] in added;
      }
      InsertConfig(kind, added);
      NewNames(old(config), kind, names, added);
    }

    method MergeConfig(opts: WriteOptions) returns (fields: seq<string>, search: seq<string>)
      requires WellFormed(Now())
      modifies this`config
      ensures config == old(config) + ConfigOf(opts.indexed, opts.search)
      ensures fields == Listing(NamesOf(config, Field)) && search == Listing(NamesOf(config, Search))
    {
      hide ValidDocName, TrimSpace, Listing;
      var fields0, fields1 := MergeKind(Field, opts.indexed);
      var search0, search1 := MergeKind(Search, opts.search);
      ConfigUnion(config, opts.indexed, opts.search);
      if fields0 == fields1 && search0 == search1 {
        ListingInjective(NamesOf(config, Field), NamesOf(config, Field) + ValidNames(opts.indexed));
        ListingInjective(NamesOf(config, Search), NamesOf(config, Search) + ValidNames(opts.search));
        NothingNew(config, opts.indexed, opts.search);
        return fields1, search1;
      }
      AddConfig(Field, fields0, fields1, ValidNames(opts.indexed));
      KindsApart(old(config), ValidNames(opts.indexed));
      AddConfig(Search, search0, search1, ValidNames(opts.search));
      return fields1, search1;
    }

    /** Drop the whole index and build it again from the live documents, all or nothing. */
    method ConfigureIndexes(fields: seq<string>, search: seq<string>, now: int) returns (ok: bool)
      modifies this
      ensures Configured(old(Now()), Now(), fields, search, now)
      ensures ok <==> forall id :: Alive(old(Now()), id, now) ==> Parse(old(docs)[id].value).Some?
    {
      hide Parse, SearchText, Listing, Inserted, RowsFor, Configured, Rebuilt, ValidNames, NamesOf;
      var before := Now();
      var names := UniqueValidFields(fields);
      var texts := UniqueValidFields(search);
      ListingIsDistinct(ValidNames(fields));
      ListingIsDistinct(ValidNames(search));
      config, index := {}, map[];
      InsertConfig(Field, names);
      InsertConfig(Search, texts);
      assert config == ConfigOf(fields, search);
      hide ConfigOf;
      ghost var built := config;
      var live := set id | id in docs && !Passed(docs[id].expiresAt, now);
      var ids := Listing(live);
      ListingIsDistinct(live);
      RebuiltNone(before, built, ValidNames(fields), texts);
      ghost var done: set<string> := {};
      for i := 0 to |ids|
        invariant config == built
        invariant forall j :: 0 <= j < |ids| ==> (ids[j] in done <==> j < i)
        invariant done <= live && Rebuilt(before, Now(), done, ValidNames(fields), texts)
      {
        assert ids[i] in ids && ids[i] in before.docs && ids[i] !in done;
        RebuiltLeaves(before, Now(), done, ValidNames(fields), texts, ids[i]);
        var parsed := Reindex(ids[i], names, texts, before, done, ValidNames(fields));
        if !parsed {
          docs, config, index := before.docs, before.config, before.index;
          ConfigureFails(before, ids[i], fields, search, now);
          return false;
        }
        done := done + {ids[i]};
      }
      forall id | id in live
        ensures id in done
      {
        assert id in ids;
      }
      assert done == live;
      RebuiltAll(before, Now(), live, fields, search, now);
      return true;
    }

    /** One document of the rebuild. */
    method Reindex(
        id: string, names: seq<string>, texts: seq<string>, ghost before: Tables, ghost done: set<string>,
        ghost nameSet: set<string>)
      returns (parsed: bool)
      requires id in docs && id in before.docs && id !in done && docs[id].value == before.docs[id].value
      requires Rebuilt(before, Now(), done, nameSet, texts)
      requires forall f :: f in names <==> f in nameSet
      requires forall i, j :: 0 <= i < j < |names| ==> names[i] != names[j]
      modifies this`docs, this`index
      ensures parsed <==> Parse(before.docs[id].value).Some?
      ensures parsed ==> Rebuilt(before, Now(), done + {id}, nameSet, texts)
    {
      hide Parse, SearchText, Inserted, RowsFor, Rebuilt;
      ghost var mid := Now();
      var built := BuildDocIndexes(id, docs[id].value, names, texts);
      if built.None? {
        return false;
      }
      var (rows, searchText) := built.value;
      RebuiltFresh(before, mid, done, nameSet, texts, id, docs[id].value, names, rows);
      InsertIndex(rows);
      docs := docs[id := docs[id].(searchText := searchText)];
      RebuiltNext(before, mid, Now(), done, nameSet, names, texts, id, rows);
      return true;
    }

    // ------------------------------------------------------------ documents

    method GetLiveDocRow(id: string, now: int) returns (row: Option<DocRow>)
      modifies this
      ensures LookedUp(old(Now()), Now(), id, now)
      ensures row == if Alive(old(Now()), id, now) then Some(old(docs)[id]) else None
      ensures config == old(config)
    {
      if id !in docs {
        return None;
      }
      if Passed(docs[id].expiresAt, now) {
        row := None;
        DeleteIndexOf(id);
        docs := docs - {id};
        return;
      }
      return Some(docs[id]);
    }

    /** The last three statements of PutDoc: the document row, and its index rows deleted and inserted. */
    method ReplaceDoc(id: string, row: DocRow, rows: seq<IndexRow>, ghost fields: seq<string>)
      requires RowsFor(rows, id, row.value, fields)
      modifies this`docs, this`index
      ensures docs == old(docs)[id := row] && Reindexed(old(index), index, id, row.value, fields)
    {
      hide Inserted, RowsFor, Cleared, Reindexed;
      docs := docs[id := row];
      DeleteIndexOf(id);
      ghost var bare := index;
      ClearedIsFresh(old(index), bare, id, row.value, fields, rows);
      InsertIndex(rows);
      ClearedAndInserted(old(index), bare, index, id, row.value, fields, rows);
    }

    method PutDoc(id: string, value: Json, opts: WriteOptions, createOnly: bool, now: int) returns (r: Outcome)
      requires WellFormed(Now())
      modifies this
      ensures Put(old(Now()), Now(), id, value, opts, createOnly, now)
      ensures r == PutOutcome(old(Now()), id, value, createOnly, now)
    {
      hide Parse, SearchText, Listing, NamesOf, ConfigOf, WellFormed, LookedUp, RowsFor, Reindexed, Put;
      var before := Now();
      PutFails(before, id, value, opts, createOnly, now);
      var fields, search := MergeConfig(opts);
      ListingIsDistinct(NamesOf(config, Field));
      var row := GetLiveDocRow(id, now);
      if createOnly && row.Some? {
        docs, config, index := before.docs, before.config, before.index;
        return Conflict;
      }
      var built := BuildDocIndexes(id, value, fields, search);
      if built.None? {
        docs, config, index := before.docs, before.config, before.index;
        return InvalidRequest;
      }
      var (rows, searchText) := built.value;
      var expires: Option<int> := None;
      if opts.ttl > 0 {
        expires := Some(now + opts.ttl);
      } else if row.Some? {
        expires := row.value.expiresAt;
      }
      var version := 1;
      if row.Some? {
        version := row.value.version + 1;
      }
      ghost var looked := Now();
      ReplaceDoc(id, DocRow(value, searchText, expires, version), rows, fields);
      PutDone(before, looked, Now(), fields, id, value, opts, createOnly, now, docs[id]);
      return Stored(version, row.None?);
    }

    /** QueryDocs, with and without a filter; the rows found are given by their ids. */
    method QueryDocs(opts: QueryOptions, now: int, same: Like.Same) returns (r: QueryReply)
      requires WellFormed(Now())
      ensures r == match opts.filter
        case None => Found(QueryPage(Matching(Now(), opts.search, now, same), opts.cursor, opts.limit))
        case Some(filter) =>
          if !IsEq(filter.op) then BadFilter
          else if ConfigRow(Field, filter.field) !in config then NotIndexed
          else Found(IndexPage(Now(), filter, opts.search, opts.cursor, opts.limit, now, same))
    {
      hide Listing, WellFormed;
      var limit := NormalizeDocLimit(opts.limit);
      if opts.filter.Some? {
        var filter := opts.filter.value;
        if !IsEq(filter.op) {
          return BadFilter;
        }
        var fields := ReadConfig(Field);
        ListingIsDistinct(NamesOf(config, Field));
        if filter.field !in fields {
          return NotIndexed;
        }
        assert ConfigRow(Field, filter.field) in config;
        var page := QueryDocsByIndex(filter, opts, limit, now, same);
        return Found(page);
      }
      var rows := Page(Matching(Now(), opts.search, now, same), opts.cursor, limit + 1);
      var page := DocQueryResult(rows, limit);
      return Found(page);
    }

    method QueryDocsByIndex(filter: WhereFilter, opts: QueryOptions, limit: nat, now: int, same: Like.Same)
      returns (r: QueryResult)
      requires limit == NormalizeDocLimit(opts.limit)
      ensures r == IndexPage(Now(), filter, opts.search, opts.cursor, opts.limit, now, same)
    {
      hide Listing, MatchesSearch;
      var ids := Page(IndexedIds(Now(), filter), opts.cursor, limit + 1);
      if ids == [] {
        return QueryResult([], "", false);
      }
      var byID := map id | id in ids && id in docs && !Passed(docs[id].expiresAt, now) &&
          MatchesSearch(docs[id], opts.search, same) :: docs[id];
      var ordered: seq<string> := [];
      for i := 0 to |ids|
        invariant ordered == Filter(ids[..i], Matching(Now(), opts.search, now, same))
      {
        assert ids[..i + 1][..i] == ids[..i];
        assert ids[i] in ids;
        if ids[i] in byID {
          ordered := ordered + [ids[i]];
        }
      }
      assert ids[..|ids|] == ids;
      r := DocQueryResult(ordered, limit);
    }

    method DeleteDoc(id: string) returns (deleted: bool)
      modifies this
      ensures Removed(old(Now()), Now(), id) && deleted == (id in old(docs))
    {
      DeleteIndexOf(id);
      deleted := id in docs;
      docs := docs - {id};
    }
  }

  /** A document's index rows and search text. */
  method BuildDocIndexes(id: string, value: Json, fields: seq<string>, search: seq<string>)
    returns (r: Option<(seq<IndexRow>, string)>)
    requires forall i, j :: 0 <= i < j < |fields| ==> fields[i] != fields[j]
    ensures r.None? <==> Parse(value).None?
    ensures r.Some? ==> RowsFor(r.value.0, id, value, fields) && r.value.1 == SearchText(value, search)
  {
    hide RowsFor;
    var parsed := Parse(value);
    if parsed.None? {
      return None;
    }
    var obj := parsed.value;
    var rows: seq<IndexRow> := [];
    RowsForNone(id, value);
    for n := 0 to |fields|
      invariant RowsFor(rows, id, value, fields[..n])
    {
      var field := fields[n];
      assert fields[..n + 1] == fields[..n] + [field];
      if field !in obj {
        RowsForSkip(rows, id, value, fields[..n], field);
        continue;
      }
      var text := NormalizeScalar(obj[field]);
      if text.None? {
        RowsForSkip(rows, id, value, fields[..n], field);
        continue;
      }
      RowsForNext(rows, id, value, fields[..n], field, text.value);
      rows := rows + [IndexRow(IndexKey(field, Sha256(text.value), id), text.value)];
    }
    assert fields[..|fields|] == fields;
    var parts: seq<string> := [];
    for n := 0 to |search|
      invariant parts == SearchParts(obj, search[..n])
    {
      assert search[..n + 1][..n] == search[..n];
      if search[n] in obj && obj[search[n]].Text? && obj[search[n]].s != "" {
        parts := parts + [obj[search[n]].s];
      }
    }
    assert search[..|search|] == search;
    return Some((rows, Join(parts)));
  }

  lemma RowsForNone(id: string, value: Json)
    ensures RowsFor([], id, value, [])
  {
  }

  /** The next field does not normalise. */
  lemma RowsForSkip(rows: seq<IndexRow>, id: string, value: Json, fields: seq<string>, field: string)
    requires RowsFor(rows, id, value, fields) && FieldText(value, field).None?
    ensures RowsFor(rows, id, value, fields + [field])
  {
    hide FieldText;
    forall key: IndexKey | key.id == id && key.field in fields + [field] && Indexable(value, key)
      ensures exists i :: 0 <= i < |rows| && rows[i].key == key
    {
      assert key.field in fields;
    }
  }

  /** The next field normalises to `text`. */
  lemma RowsForNext(rows: seq<IndexRow>, id: string, value: Json, fields: seq<string>, field: string, text: string)
    requires RowsFor(rows, id, value, fields) && field !in fields && FieldText(value, field) == Some(text)
    ensures RowsFor(rows + [IndexRow(IndexKey(field, Sha256(text), id), text)], id, value, fields + [field])
  {
    hide FieldText;
    var all := rows + [IndexRow(IndexKey(field, Sha256(text), id), text)];
    forall key: IndexKey | key.id == id && key.field in fields + [field] && Indexable(value, key)
      ensures exists i :: 0 <= i < |all| && all[i].key == key
    {
      if key.field in fields {
        var i :| 0 <= i < |rows| && rows[i].key == key;
        assert all[i].key == key;
      } else {
        assert all[|rows|].key == key;
      }
    }
  }

  // ---------------------------------------------------------------- helpers about configurations

  lemma ListingIsDistinct(s: set<string>)
    ensures forall f :: f in Listing(s) <==> f in s
    ensures forall i, j :: 0 <= i < j < |Listing(s)| ==> Listing(s)[i] != Listing(s)[j]
  {
    hide LexLess, Sorted;
    LexIsStrictTotal();
    SortedIsSorted(s, LexLess);
  }

  lemma ListingInjective(a: set<string>, b: set<string>)
    requires Listing(a) == Listing(b)
    ensures a == b
  {
    hide Listing;
    ListingIsDistinct(a);
    ListingIsDistinct(b);
  }

  lemma NewNames(config: set<ConfigRow>, kind: Kind, names: set<string>, added: seq<string>)
    requires forall f :: f in added <==> f in NamesOf(config, kind) + names && f !in NamesOf(config, kind)
    ensures config + (set f | f in added :: ConfigRow(kind, f)) == config + set f | f in names :: ConfigRow(kind, f)
  {
    forall f | f in names && f !in added
      ensures ConfigRow(kind, f) in config
    {
      assert f in NamesOf(config, kind);
    }
  }

  lemma ConfigUnion(config: set<ConfigRow>, fields: seq<string>, search: seq<string>)
    ensures NamesOf(config + ConfigOf(fields, search), Field) == NamesOf(config, Field) + ValidNames(fields)
    ensures NamesOf(config + ConfigOf(fields, search), Search) == NamesOf(config, Search) + ValidNames(search)
  {
    hide ValidNames;
    var more := config + ConfigOf(fields, search);
    forall f | f in ValidNames(fields)
      ensures f in NamesOf(more, Field)
    {
      assert ConfigRow(Field, f) in more;
    }
    forall f | f in ValidNames(search)
      ensures f in NamesOf(more, Search)
    {
      assert ConfigRow(Search, f) in more;
    }
  }

  lemma NothingNew(config: set<ConfigRow>, fields: seq<string>, search: seq<string>)
    requires ValidNames(fields) <= NamesOf(config, Field) && ValidNames(search) <= NamesOf(config, Search)
    ensures config + ConfigOf(fields, search) == config
  {
    hide ValidNames;
  }

  lemma KindsApart(config: set<ConfigRow>, names: set<string>)
    ensures NamesOf(config + (set f | f in names :: ConfigRow(Field, f)), Search) == NamesOf(config, Search)
  {
  }
}
