/** What filters, searches, field names and writes of documents mean in terms of the documents themselves. */
module DocLaws {
  import opened Decimal
  import opened StoreTypes
  import opened Ordering
  import opened Paging
  import opened DocIndex
  import opened DocAgreement
  import Like
  import Resp

  function FieldsOf(value: Json): map<string, Json> {
    if value.Obj? then value.fields else map[]
  }

  // ---------------------------------------------------------------- filters

  /** The value that a filter gives as text stands for the value of a field. */
  predicate StandsFor(x: string, v: Json) {
    || v == Text(x)
    || v == Num(x)
    || (v == Bool(true) && x == "true")
    || (v == Bool(false) && x == "false")
    || (v == Null && x == "null")
  }

  predicate HasValue(value: Json, field: string, x: string) {
    field in FieldsOf(value) && StandsFor(x, FieldsOf(value)[field])
  }

  lemma TextIsValue(value: Json, field: string, x: string)
    ensures FieldText(value, field) == Some(x) <==> HasValue(value, field, x)
  {
  }

  /** With the index sound and complete, a filter on an indexed field finds a live document if and only if the
      document has that text, that number, true, false or null there; arrays and objects are never found. */
  lemma FilterFindsValues(t: Tables, filter: WhereFilter, now: int, id: string)
    requires Sound(t) && Complete(t, now) && ConfigRow(Field, filter.field) in t.config && Alive(t, id, now)
    ensures id in IndexedIds(t, filter) <==> HasValue(t.docs[id].value, filter.field, filter.value)
  {
    hide FieldText, HasValue;
    TextIsValue(t.docs[id].value, filter.field, filter.value);
    var key := IndexKey(filter.field, Sha256(filter.value), id);
    if HasValue(t.docs[id].value, filter.field, filter.value) {
      assert Indexable(t.docs[id].value, key) && key in t.index;
    }
    if id in IndexedIds(t, filter) {
      assert key in t.index;
    }
  }

  /** And the pages of a filtered query list exactly the live documents with that value. */
  lemma WantedHaveValue(t: Tables, filter: WhereFilter, now: int, same: Like.Same, id: string)
    ensures id in Wanted(t, filter, "", now, same) <==>
            Alive(t, id, now) && HasValue(t.docs[id].value, filter.field, filter.value)
  {
    hide FieldText, HasValue;
    if id in t.docs {
      TextIsValue(t.docs[id].value, filter.field, filter.value);
    }
  }

  /** The one operator, in any case. */
  lemma FilterOperators(op: string)
    ensures IsEq(op) <==> op in ["eq", "eQ", "Eq", "EQ"]
  {
    if IsEq(op) {
      assert op == [op[0], op[1]];
    }
  }

  // ---------------------------------------------------------------- searches

  predicate OneWord(term: string, same: Like.Same) {
    term != "" && forall i :: 0 <= i < |term| ==> !same(term[i], ' ')
  }

  ghost predicate SomeContains(parts: seq<string>, term: string, same: Like.Same) {
    exists i :: 0 <= i < |parts| && Like.Contains(parts[i], term, same)
  }

  lemma ContainsLeft(a: string, b: string, term: string, same: Like.Same)
    requires Like.Contains(a, term, same)
    ensures Like.Contains(a + b, term, same)
  {
    var i :| Like.OccursAt(a, term, i, same);
    assert (a + b)[i..i + |term|] == a[i..i + |term|];
    assert Like.OccursAt(a + b, term, i, same);
  }

  lemma ContainsRight(a: string, b: string, term: string, same: Like.Same)
    requires Like.Contains(b, term, same)
    ensures Like.Contains(a + b, term, same)
  {
    var i :| Like.OccursAt(b, term, i, same);
    assert (a + b)[|a| + i..|a| + i + |term|] == b[i..i + |term|];
    assert Like.OccursAt(a + b, term, |a| + i, same);
  }

  /** A word does not reach across a space. */
  lemma ContainsApart(a: string, b: string, term: string, same: Like.Same)
    requires OneWord(term, same) && Like.Contains(a + " " + b, term, same)
    ensures Like.Contains(a, term, same) || Like.Contains(b, term, same)
  {
    var s := a + " " + b;
    var i :| Like.OccursAt(s, term, i, same);
    var part := s[i..i + |term|];
    SpacesOutside(s, term, same, i, |a|);
    if i + |term| <= |a| {
      assert part == a[i..i + |term|];
      assert Like.OccursAt(a, term, i, same);
    } else {
      var j := i - |a| - 1;
      assert part == b[j..j + |term|];
      assert Like.OccursAt(b, term, j, same);
    }
  }

  lemma SpacesOutside(s: string, term: string, same: Like.Same, i: int, p: nat)
    requires Like.OccursAt(s, term, i, same) && p < |s| && s[p] == ' '
    ensures p < i || i + |term| <= p || same(term[p - i], ' ')
  {
    var part := s[i..i + |term|];
    assert i <= p < i + |term| ==> part[p - i] == s[p];
  }

  lemma {:induction false} JoinContains(parts: seq<string>, term: string, same: Like.Same)
    requires OneWord(term, same)
    ensures Like.Contains(Join(parts), term, same) <==> SomeContains(parts, term, same)
  {
    hide Like.Contains;
    if |parts| > 1 {
      var a, rest := parts[0], parts[1..];
      JoinContains(rest, term, same);
      assert Join(parts) == a + " " + Join(rest);
      if Like.Contains(Join(parts), term, same) {
        ContainsApart(a, Join(rest), term, same);
        if !Like.Contains(a, term, same) {
          var i :| 0 <= i < |rest| && Like.Contains(rest[i], term, same);
          assert Like.Contains(parts[i + 1], term, same);
        }
      }
      if SomeContains(parts, term, same) {
        var i :| 0 <= i < |parts| && Like.Contains(parts[i], term, same);
        if i == 0 {
          ContainsLeft(a, " " + Join(rest), term, same);
          assert a + (" " + Join(rest)) == Join(parts);
        } else {
          assert Like.Contains(rest[i - 1], term, same);
          ContainsRight(a + " ", Join(rest), term, same);
        }
      }
    } else {
      NothingInEmpty(term, same);
    }
  }

  lemma NothingInEmpty(term: string, same: Like.Same)
    requires term != ""
    ensures !Like.Contains("", term, same)
  {
  }

  predicate IsPart(obj: map<string, Json>, f: string, p: string) {
    f in obj && obj[f] == Text(p) && p != ""
  }

  lemma {:induction false} PartsAre(obj: map<string, Json>, fields: seq<string>, p: string)
    ensures p in SearchParts(obj, fields) <==> exists i :: 0 <= i < |fields| && IsPart(obj, fields[i], p)
  {
    if fields != [] {
      var n := |fields| - 1;
      PartsAre(obj, fields[..n], p);
      if exists i :: 0 <= i < |fields| && IsPart(obj, fields[i], p) {
        var i :| 0 <= i < |fields| && IsPart(obj, fields[i], p);
        assert i < n ==> IsPart(obj, fields[..n][i], p);
      }
    }
  }

  /** Field f of the document is a text that contains the term. */
  ghost predicate FieldContains(value: Json, f: string, term: string, same: Like.Same) {
    f in FieldsOf(value) && FieldsOf(value)[f].Text? && Like.Contains(FieldsOf(value)[f].s, term, same)
  }

  lemma SearchTextContains(value: Json, names: set<string>, term: string, same: Like.Same)
    requires OneWord(term, same)
    ensures Like.Contains(SearchText(value, Listing(names)), term, same) <==>
            exists f :: f in names && FieldContains(value, f, term, same)
  {
    hide Like.Contains, Listing, Join;
    NothingInEmpty(term, same);
    ListingIsDistinct(names);
    var obj, list := FieldsOf(value), Listing(names);
    var parts := SearchParts(obj, list);
    JoinContains(parts, term, same);
    if SomeContains(parts, term, same) {
      var i :| 0 <= i < |parts| && Like.Contains(parts[i], term, same);
      PartsAre(obj, list, parts[i]);
      var j :| 0 <= j < |list| && IsPart(obj, list[j], parts[i]);
      assert list[j] in names && FieldContains(value, list[j], term, same);
    }
    if exists f :: f in names && FieldContains(value, f, term, same) {
      var f :| f in names && FieldContains(value, f, term, same);
      assert f in list;
      var j :| 0 <= j < |list| && list[j] == f;
      PartsAre(obj, list, obj[f].s);
      assert IsPart(obj, list[j], obj[f].s);
      var i :| 0 <= i < |parts| && parts[i] == obj[f].s;
    }
  }

  /** With search texts up to date, a search for a word finds a live document if and only if one of the
      configured search fields holds a text that contains it. */
  lemma SearchFindsFields(t: Tables, term: string, now: int, same: Like.Same, id: string)
    requires Searchable(t, now) && Alive(t, id, now) && OneWord(term, same)
    ensures id in Matching(t, term, now, same) <==>
            exists f :: ConfigRow(Search, f) in t.config && FieldContains(t.docs[id].value, f, term, same)
  {
    hide SearchText, Listing, Matching, FieldContains, Like.Contains;
    SearchIsExact(t, term, now, same, id);
    var names := NamesOf(t.config, Search);
    SearchTextContains(t.docs[id].value, names, term, same);
    forall f
      ensures f in names <==> ConfigRow(Search, f) in t.config
    {
    }
  }

  // ---------------------------------------------------------------- field names

  predicate Blank(s: string) {
    forall i :: 0 <= i < |s| ==> s[i] in " \t\n\r" || s[i] == 11 as char || s[i] == 12 as char
  }

  /** The given text is the name with blanks around it. */
  ghost predicate Pads(text: string, name: string) {
    exists a, b :: text == a + name + b && Blank(a) && Blank(b)
  }

  lemma {:induction false} TrimLeftSplits(s: string) returns (a: string)
    ensures s == a + TrimLeft(s) && Blank(a)
  {
    if s != "" && Resp.IsSpace(s[0]) {
      var rest := TrimLeftSplits(s[1..]);
      a := [s[0]] + rest;
    } else {
      a := "";
    }
  }

  lemma {:induction false} TrimRightSplits(s: string) returns (b: string)
    ensures s == TrimRight(s) + b && Blank(b)
  {
    if s != "" && Resp.IsSpace(s[|s| - 1]) {
      var rest := TrimRightSplits(s[..|s| - 1]);
      b := rest + [s[|s| - 1]];
    } else {
      b := "";
    }
  }

  lemma {:induction false} TrimLeftDrops(a: string, s: string)
    requires Blank(a) && s != "" && !Resp.IsSpace(s[0])
    ensures TrimLeft(a + s) == s
  {
    if a == "" {
      assert a + s == s;
    } else {
      assert (a + s)[1..] == a[1..] + s;
      TrimLeftDrops(a[1..], s);
    }
  }

  lemma {:induction false} TrimRightDrops(s: string, b: string)
    requires Blank(b) && s != "" && !Resp.IsSpace(s[|s| - 1])
    ensures TrimRight(s + b) == s
  {
    if b == "" {
      assert s + b == s;
    } else {
      var n := |b| - 1;
      assert (s + b)[..|s + b| - 1] == s + b[..n];
      TrimRightDrops(s, b[..n]);
    }
  }

  /** Up to 128 letters, digits, underscores and dashes, and at least one. */
  predicate IsName(v: string) {
    1 <= |v| <= 128 && forall i :: 0 <= i < |v| ==>
      'a' <= v[i] <= 'z' || 'A' <= v[i] <= 'Z' || '0' <= v[i] <= '9' || v[i] == '_' || v[i] == '-'
  }

  lemma TrimIsPadding(text: string, name: string)
    requires IsName(name)
    ensures TrimSpace(text) == name <==> Pads(text, name)
  {
    if TrimSpace(text) == name {
      var a := TrimLeftSplits(text);
      var b := TrimRightSplits(TrimLeft(text));
      assert text == a + (name + b) == a + name + b;
    }
    if Pads(text, name) {
      var a, b :| text == a + name + b && Blank(a) && Blank(b);
      assert text == a + (name + b) && (name + b)[0] == name[0];
      TrimLeftDrops(a, name + b);
      TrimRightDrops(name, b);
    }
  }

  /** The fields that a configuration takes are the names that were given, blanks around them aside. */
  lemma TakenNames(fields: seq<string>, v: string)
    ensures v in ValidNames(fields) <==> IsName(v) && exists i :: 0 <= i < |fields| && Pads(fields[i], v)
  {
    hide TrimSpace, Pads;
    assert ValidDocName(v) <==> IsName(v);
    if IsName(v) {
      forall i | 0 <= i < |fields|
        ensures TrimSpace(fields[i]) == v <==> Pads(fields[i], v)
      {
        TrimIsPadding(fields[i], v);
      }
      if exists i :: 0 <= i < |fields| && Pads(fields[i], v) {
        var i :| 0 <= i < |fields| && Pads(fields[i], v);
        assert fields[i] in fields;
      }
      if v in ValidNames(fields) {
        var f :| f in fields && TrimSpace(f) == v;
        var i :| 0 <= i < |fields| && fields[i] == f;
        assert Pads(fields[i], v);
      }
    }
  }

  // ---------------------------------------------------------------- writes

  /** How often a document was written, and with what last. */
  datatype Written = Written(count: nat, last: Json)

  predicate IsDocument(value: Json) {
    value.Obj? || value.Null?
  }

  /** The writes of a document that go through, told from the calls: those of a JSON object, unless they are to
      create a document that is there. */
  function WritesOf(events: seq<Event>, id: string): Written {
    if events == [] then Written(0, Null)
    else
      var n := |events| - 1;
      var w, op := WritesOf(events[..n], id), events[n].op;
      if op.PutDoc? && op.id == id && IsDocument(op.value) && !(op.createOnly && w.count > 0)
      then Written(w.count + 1, op.value) else w
  }

  /** The document is what was last written, and its version counts the writes. */
  predicate Holds(t: Tables, id: string, w: Written) {
    if w.count == 0 then id !in t.docs
    else id in t.docs && t.docs[id].value == w.last && t.docs[id].version == w.count && t.docs[id].expiresAt.None?
  }

  /** Neither deleted nor given an expiry. */
  predicate Spares(op: Op, id: string) {
    && (op.DeleteDoc? ==> op.id != id)
    && (op.PutDoc? && op.id == id ==> op.opts.ttl <= 0)
  }

  lemma WriteStep(t: Tables, u: Tables, op: Op, now: int, id: string, w: Written)
    requires Step(t, u, op, now) && Spares(op, id) && Holds(t, id, w)
    ensures
      var through := op.PutDoc? && op.id == id && IsDocument(op.value) && !(op.createOnly && w.count > 0);
      && Holds(u, id, if through then Written(w.count + 1, op.value) else w)
      && (op.PutDoc? && op.id == id ==>
            PutOutcome(t, id, op.value, op.createOnly, now) ==
              if through then Stored(w.count + 1, w.count == 0)
              else if op.createOnly && w.count > 0 then Conflict else InvalidRequest)
  {
    hide ConfigOf, ValidNames, Listing, SearchText, FieldText;
  }

  lemma WritesNext(events: seq<Event>, id: string, n: nat)
    requires n < |events|
    ensures
      var w, op := WritesOf(events[..n], id), events[n].op;
      WritesOf(events[..n + 1], id) ==
        if op.PutDoc? && op.id == id && IsDocument(op.value) && !(op.createOnly && w.count > 0)
        then Written(w.count + 1, op.value) else w
  {
    assert events[..n + 1][..n] == events[..n];
  }

  lemma {:induction false} HoldsThroughout(ss: seq<Tables>, events: seq<Event>, start: int, id: string, n: nat)
    requires Behaviour(ss, events, start) && n <= |events| && id !in ss[0].docs
    requires forall i :: 0 <= i < n ==> Spares(events[i].op, id)
    ensures Holds(ss[n], id, WritesOf(events[..n], id))
  {
    hide Step, Spares, IsDocument;
    if n > 0 {
      HoldsThroughout(ss, events, start, id, n - 1);
      assert StepAt(ss, events, n - 1);
      hide Holds, WritesOf;
      WritesNext(events, id, n - 1);
      WriteStep(ss[n - 1], ss[n], events[n - 1].op, events[n - 1].now, id, WritesOf(events[..n - 1], id));
    }
  }

  /** Over every run that neither deletes the document nor lets it expire: it holds what was last written, its
      version counts the writes that went through, and each call is told which of them it was, that the
      document is there already, or that it sent no document. */
  lemma VersionsCountWrites(ss: seq<Tables>, events: seq<Event>, start: int, id: string, n: nat)
    requires Behaviour(ss, events, start) && n <= |events| && id !in ss[0].docs
    requires forall i :: 0 <= i < n ==> Spares(events[i].op, id)
    ensures Holds(ss[n], id, WritesOf(events[..n], id))
    ensures n < |events| && events[n].op.PutDoc? && events[n].op.id == id && Spares(events[n].op, id) ==>
      var w, op := WritesOf(events[..n], id), events[n].op;
      PutOutcome(ss[n], id, op.value, op.createOnly, events[n].now) ==
        if op.createOnly && w.count > 0 then Conflict
        else if !IsDocument(op.value) then InvalidRequest
        else Stored(w.count + 1, w.count == 0)
  {
    hide Step, Spares, IsDocument, Holds, WritesOf, PutOutcome;
    HoldsThroughout(ss, events, start, id, n);
    if n < |events| && events[n].op.PutDoc? && events[n].op.id == id && Spares(events[n].op, id) {
      assert StepAt(ss, events, n);
      WriteStep(ss[n], ss[n + 1], events[n].op, events[n].now, id, WritesOf(events[..n], id));
    }
  }

  /** A write with a time to live is there for that long; one without leaves the expiry of the document that it
      finds, and a new document never expires. */
  lemma WrittenLasts(
      t: Tables, u: Tables, id: string, value: Json, opts: WriteOptions, createOnly: bool, now: int, later: int)
    requires Put(t, u, id, value, opts, createOnly, now) && PutOutcome(t, id, value, createOnly, now).Stored?
    requires now <= later
    ensures id in u.docs && u.docs[id].value == value
    ensures Alive(u, id, later) <==>
            if opts.ttl > 0 then later < now + opts.ttl else Alive(t, id, now) ==> Alive(t, id, later)
  {
    hide ConfigOf, ValidNames, Listing, SearchText, FieldText;
  }
}
