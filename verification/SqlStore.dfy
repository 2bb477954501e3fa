/** The transactional store of internal/store/sqlstore: key rows and sorted-set member rows in two tables,
    with expired keys deleted when somebody stumbles over them.  Every operation is proved against the
    timed map of TimedMap. */
module SqlStore {
  import opened Decimal
  import opened StoreTypes
  import Z = ZSets
  import opened TimedMap

  datatype RowKind = StringRow | ZSetRow

  /** A row of redge_keys, under its primary key (db, key). */
  datatype KeyRow = KeyRow(kind: RowKind, data: string, expiresAt: Option<int>, version: int)

  /** redge_keys, and redge_zset_members grouped by key: the member rows of a key are the entries of its
      map, and a key without any has none or an empty one. */
  datatype Tables = Tables(keys: map<Key, KeyRow>, members: map<Key, Z.Members>)

  function MembersOf(t: Tables, k: Key): Z.Members {
    if k in t.members then t.members[k] else map[]
  }

  function LiveRow(t: Tables, k: Key, now: int): Option<KeyRow> {
    if k in t.keys && !Passed(t.keys[k].expiresAt, now) then Some(t.keys[k]) else None
  }

  // ---------------------------------------------------------------- abstraction

  /** Every member row belongs to a sorted-set key row. */
  ghost predicate OwnedAt(t: Tables, k: Key) {
    MembersOf(t, k) != map[] ==> k in t.keys && t.keys[k].kind == ZSetRow
  }

  ghost predicate Owned(t: Tables) {
    forall k :: OwnedAt(t, k)
  }

  function EntryOf(row: KeyRow, m: Z.Members): Entry {
    Entry(if row.kind == StringRow then Str(row.data) else ZSet(m), row.expiresAt, row.version)
  }

  /** The timed map that the tables stand for at a time. */
  ghost function View(t: Tables, now: int): Db {
    map k | k in t.keys && !Passed(t.keys[k].expiresAt, now) :: EntryOf(t.keys[k], MembersOf(t, k))
  }

  /** Everything outside key k is as it was. */
  ghost predicate OnlyTouches(t: Tables, u: Tables, k: Key) {
    forall j :: j != k ==>
      && (j in u.keys <==> j in t.keys)
      && (j in t.keys ==> u.keys[j] == t.keys[j])
      && MembersOf(u, j) == MembersOf(t, j)
  }

  lemma ViewAfter(t: Tables, u: Tables, k: Key, now: int)
    requires OnlyTouches(t, u, k)
    ensures
      var e := if k in u.keys then Some(EntryOf(u.keys[k], MembersOf(u, k))) else None;
      View(u, now) == Stored(View(t, now), k, e, now)
  {
    hide MembersOf;
    var v, w := View(t, now), View(u, now);
    forall j | j != k
      ensures (j in w <==> j in v) && (j in v ==> w[j] == v[j])
    {
    }
  }

  lemma OwnedAfter(t: Tables, u: Tables, k: Key)
    requires OnlyTouches(t, u, k) && Owned(t) && OwnedAt(u, k)
    ensures Owned(u)
  {
    hide MembersOf;
    forall j
      ensures OwnedAt(u, j)
    {
      assert OwnedAt(t, j);
    }
  }

  lemma OwnedHere(t: Tables, k: Key)
    ensures Owned(t) ==> OwnedAt(t, k)
  {
  }

  lemma LookupView(t: Tables, k: Key, now: int)
    ensures Lookup(View(t, now), k) ==
            if LiveRow(t, k, now).Some? then Some(EntryOf(t.keys[k], MembersOf(t, k))) else None
  {
  }

  // ---------------------------------------------------------------- contracts

  /** With every member row owned, the command acts on the timed map and replies as TimedMap says. */
  ghost predicate Refines(t: Tables, u: Tables, k: Key, c: Command, now: int, reply: Reply) {
    Owned(t) ==> Owned(u) && (View(u, now), reply) == Step(View(t, now), k, c, now)
  }

  /** What the cache relies on, whether or not member rows are owned: live key rows stay as they are,
      except the row of the key of a writing command that succeeds. */
  ghost predicate KeepsRows(t: Tables, u: Tables, except: set<Key>, now: int) {
    forall j :: j !in except ==> LiveRow(u, j, now) == LiveRow(t, j, now)
  }

  function Changed(k: Key, c: Command, reply: Reply): set<Key> {
    if IsWriter(c) && !Failed(reply) then {k} else {}
  }

  /** The tables after an expired row was stumbled over. */
  function Purged(t: Tables, k: Key, now: int): Tables {
    if k in t.keys && Passed(t.keys[k].expiresAt, now) then Tables(t.keys - {k}, t.members - {k}) else t
  }

  lemma PurgeKeeps(t: Tables, k: Key, now: int)
    ensures OnlyTouches(t, Purged(t, k, now), k)
    ensures View(Purged(t, k, now), now) == View(t, now)
    ensures Owned(t) ==> Owned(Purged(t, k, now))
    ensures KeepsRows(t, Purged(t, k, now), {}, now)
    ensures LiveRow(t, k, now).None? ==> k !in Purged(t, k, now).keys
  {
    hide Owned, View;
    var u := Purged(t, k, now);
    if Owned(t) {
      OwnedHere(t, k);
      OwnedAfter(t, u, k);
    }
    ViewAfter(t, u, k, now);
    LookupView(t, k, now);
  }

  /** A command that leaves the tables as the purge left them. */
  lemma OnlyPurged(t: Tables, k: Key, c: Command, now: int, reply: Reply)
    requires
      var e := Lookup(View(t, now), k);
      Owned(t) ==> Act(e, c, now) == (e, reply)
    ensures Refines(t, Purged(t, k, now), k, c, now, reply)
    ensures KeepsRows(t, Purged(t, k, now), Changed(k, c, reply), now)
  {
    PurgeKeeps(t, k, now);
    var v := View(t, now);
    assert Stored(v, k, Lookup(v, k), now) == v;
  }

  /** A command that, after the purge, rewrites the row and the members of its key. */
  lemma Rewritten(t: Tables, u: Tables, k: Key, c: Command, now: int, reply: Reply)
    requires OnlyTouches(Purged(t, k, now), u, k)
    requires IsWriter(c) && !Failed(reply)
    requires Owned(t) ==>
      && OwnedAt(u, k)
      && Act(Lookup(View(t, now), k), c, now) ==
           (if k in u.keys then Some(EntryOf(u.keys[k], MembersOf(u, k))) else None, reply)
    ensures Refines(t, u, k, c, now, reply)
    ensures KeepsRows(t, u, Changed(k, c, reply), now)
  {
    hide View, Owned, Act, OwnedAt;
    PurgeKeeps(t, k, now);
    ViewAfter(Purged(t, k, now), u, k, now);
    if Owned(t) {
      OwnedAfter(Purged(t, k, now), u, k);
    }
  }

  /** What ZRem, ZRemRangeByScore and zpop take out of a key's member rows. */
  datatype Removal = Removal(rest: Z.Members, reply: Reply, changed: bool)

  function Removed(rows: Z.Members, c: Command): Removal
    requires c.ZRem? || c.ZRemRange? || c.ZPop?
  {
    match c
    case ZRem(names) =>
      var n := |rows.Keys * names|;
      Removal(rows - names, Number(n), n > 0)
    case ZRemRange(min, max) =>
      var (rest, n) := Z.ZRemRangeByScore(rows, min, max);
      Removal(rest, Number(n), n > 0)
    case ZPop(count, highest) =>
      var p := Z.ZPop(rows, count, highest);
      Removal(p.rest, MemberList(p.members), p.members != [])
  }

  lemma RemovalAct(e: Option<Entry>, c: Command, now: int)
    requires c.ZRem? || c.ZRemRange? || c.ZPop?
    ensures e.None? ==> Act(e, c, now) == (e, if c.ZPop? then MemberList([]) else Number(0))
    ensures e.Some? && e.value.content.Str? ==> Act(e, c, now) == (e, WrongType)
    ensures e.Some? && e.value.content.ZSet? ==>
      var r := Removed(e.value.content.members, c);
      Act(e, c, now) == (if r.changed then WithMembers(e.value, r.rest) else e, r.reply) && !Failed(r.reply)
  {
    hide Act, Removed, WithMembers, Failed;
    match c {
      case ZRem(names) => ZRemAct(e, names, now);
      case ZRemRange(min, max) => ZRemRangeAct(e, min, max, now);
      case ZPop(count, highest) => ZPopAct(e, count, highest, now);
    }
  }

  lemma ZRemAct(e: Option<Entry>, names: set<string>, now: int)
    ensures
      var c := Command.ZRem(names);
      Act(e, c, now) ==
        if e.None? then (e, Number(0)) else if e.value.content.Str? then (e, WrongType)
        else
          var r := Removed(e.value.content.members, c);
          (if r.changed then WithMembers(e.value, r.rest) else e, r.reply)
    ensures e.Some? && e.value.content.ZSet? ==> !Failed(Removed(e.value.content.members, Command.ZRem(names)).reply)
  {
    hide WithMembers;
  }

  lemma ZRemRangeAct(e: Option<Entry>, min: Z.ScoreBound, max: Z.ScoreBound, now: int)
    ensures
      var c := ZRemRange(min, max);
      Act(e, c, now) ==
        if e.None? then (e, Number(0)) else if e.value.content.Str? then (e, WrongType)
        else
          var r := Removed(e.value.content.members, c);
          (if r.changed then WithMembers(e.value, r.rest) else e, r.reply)
    ensures e.Some? && e.value.content.ZSet? ==> !Failed(Removed(e.value.content.members, ZRemRange(min, max)).reply)
  {
    hide Z.ZRemRangeByScore, WithMembers;
  }

  lemma ZPopAct(e: Option<Entry>, count: int, highest: bool, now: int)
    ensures
      var c := Command.ZPop(count, highest);
      Act(e, c, now) ==
        if e.None? then (e, MemberList([])) else if e.value.content.Str? then (e, WrongType)
        else
          var r := Removed(e.value.content.members, c);
          (if r.changed then WithMembers(e.value, r.rest) else e, r.reply)
    ensures e.Some? && e.value.content.ZSet? ==>
              !Failed(Removed(e.value.content.members, Command.ZPop(count, highest)).reply)
  {
    hide Z.ZPop, WithMembers;
  }

  /** The tables with one member row put in and its key row made or bumped. */
  function WithMember(t: Tables, k: Key, member: string, score: real): Tables {
    var row := if k in t.keys then t.keys[k].(version := t.keys[k].version + 1) else KeyRow(ZSetRow, "", None, 1);
    Tables(t.keys[k := row], t.members[k := MembersOf(t, k)[member := score]])
  }

  lemma MemberPut(t: Tables, k: Key, member: string, score: real, now: int, c: Command, reply: Reply)
    requires LiveRow(t, k, now).None? || t.keys[k].kind == ZSetRow
    requires IsWriter(c) && !Failed(reply)
    requires Owned(t) ==>
      var e := Lookup(View(t, now), k);
      Act(e, c, now) ==
        (if e.None? then Some(Entry(ZSet(map[member := score]), None, 1))
         else WithMembers(e.value, MembersOf(t, k)[member := score]), reply)
    ensures
      var u := WithMember(Purged(t, k, now), k, member, score);
      && Refines(t, u, k, c, now, reply) && KeepsRows(t, u, {k}, now)
      && LiveRow(u, k, now).Some? && u.keys[k].kind == ZSetRow
      && MembersOf(u, k) == MembersOf(Purged(t, k, now), k)[member := score]
  {
    hide Act, View, Owned, Refines, KeepsRows, IsWriter, Failed;
    LookupView(t, k, now);
    OwnedHere(t, k);
    Rewritten(t, WithMember(Purged(t, k, now), k, member, score), k, c, now, reply);
  }

  class Store {
    var keys: map<Key, KeyRow>
    var members: map<Key, Z.Members>

    constructor (t: Tables)
      ensures Now() == t
    {
      keys, members := t.keys, t.members;
    }

    function Now(): Tables
      reads this
    {
      Tables(keys, members)
    }

    /** getLiveRowTx: the row, unless it is past its expiry, in which case its rows are deleted. */
    method GetLiveRow(k: Key, now: int) returns (row: Option<KeyRow>)
      modifies this
      ensures Now() == Purged(old(Now()), k, now)
      ensures row == LiveRow(old(Now()), k, now)
      ensures row == if k in keys then Some(keys[k]) else None
    {
      if k !in keys {
        return None;
      }
      if Passed(keys[k].expiresAt, now) {
        members := members - {k};
        keys := keys - {k};
        return None;
      }
      return Some(keys[k]);
    }

    // ------------------------------------------------------------ strings and expiry

    /** Get, Type and TTL: commands that only read the key row. */
    method ReadRow(k: Key, c: Command, now: int) returns (reply: Reply)
      requires c.Get? || c.TypeOf? || c.Ttl?
      modifies this
      ensures Refines(old(Now()), Now(), k, c, now, reply)
      ensures KeepsRows(old(Now()), Now(), {}, now)
      ensures Now() == Purged(old(Now()), k, now)
      ensures c.Get? ==> reply == RowReply(LiveRow(old(Now()), k, now))
    {
      hide View, Owned, Refines, KeepsRows;
      LookupView(Now(), k, now);
      var row := GetLiveRow(k, now);
      match c {
        case Get => reply := RowReply(row);
        case TypeOf =>
          reply := Kind(if row.None? then "none" else if row.value.kind == StringRow then "string" else "zset");
        case Ttl =>
          var expires := if row.Some? then row.value.expiresAt else None;
          reply := TimeLeft(row.Some?, if expires.Some? then Some(expires.value - now) else None);
      }
      OnlyPurged(old(Now()), k, c, now, reply);
    }

    method Set(k: Key, value: string, opts: SetOptions, now: int) returns (reply: Reply)
      modifies this
      ensures Refines(old(Now()), Now(), k, Command.Set(value, opts), now, reply)
      ensures KeepsRows(old(Now()), Now(), Changed(k, Command.Set(value, opts), reply), now)
    {
      hide View, Owned, Refines, KeepsRows;
      ghost var c := Command.Set(value, opts);
      LookupView(Now(), k, now);
      var row := GetLiveRow(k, now);
      var entry := if row.Some? then Some(EntryOf(row.value, MembersOf(Now(), k))) else None;
      if opts.nx && row.Some? {
        OnlyPurged(old(Now()), k, c, now, Wrote(entry, false));
        return Wrote(entry, false);
      }
      if opts.xx && row.None? {
        OnlyPurged(old(Now()), k, c, now, Wrote(None, false));
        return Wrote(None, false);
      }
      if row.Some? && row.value.kind != StringRow {
        OnlyPurged(old(Now()), k, c, now, WrongType);
        return WrongType;
      }
      var expires: Option<int> := None;
      if opts.keepTTL && row.Some? {
        expires := row.value.expiresAt;
      }
      if opts.ttl > 0 {
        expires := Some(now + opts.ttl);
      }
      var version := if row.Some? then row.value.version + 1 else 1;
      keys := keys[k := KeyRow(StringRow, value, expires, version)];
      reply := Wrote(entry, true);
      OwnedHere(old(Now()), k);
      Rewritten(old(Now()), Now(), k, c, now, reply);
    }

    method GetDel(k: Key, now: int) returns (reply: Reply)
      modifies this
      ensures Refines(old(Now()), Now(), k, Command.GetDel, now, reply)
      ensures KeepsRows(old(Now()), Now(), Changed(k, Command.GetDel, reply), now)
    {
      hide View, Owned, Refines, KeepsRows;
      LookupView(Now(), k, now);
      var row := GetLiveRow(k, now);
      if row.None? {
        OnlyPurged(old(Now()), k, Command.GetDel, now, Value(None));
        return Value(None);
      }
      if row.value.kind != StringRow {
        OnlyPurged(old(Now()), k, Command.GetDel, now, WrongType);
        return WrongType;
      }
      keys := keys - {k};
      reply := Value(Some(EntryOf(row.value, map[])));
      OwnedHere(old(Now()), k);
      Rewritten(old(Now()), Now(), k, Command.GetDel, now, reply);
    }

    method Expire(k: Key, ttl: int, now: int) returns (reply: Reply)
      modifies this
      ensures Refines(old(Now()), Now(), k, Command.Expire(ttl), now, reply)
      ensures KeepsRows(old(Now()), Now(), Changed(k, Command.Expire(ttl), reply), now)
    {
      hide View, Owned, Refines, KeepsRows;
      LookupView(Now(), k, now);
      var row := GetLiveRow(k, now);
      if row.None? {
        OnlyPurged(old(Now()), k, Command.Expire(ttl), now, Flag(false));
        return Flag(false);
      }
      keys := keys[k := row.value.(expiresAt := Some(now + ttl), version := row.value.version + 1)];
      OwnedHere(old(Now()), k);
      Rewritten(old(Now()), Now(), k, Command.Expire(ttl), now, Flag(true));
      return Flag(true);
    }

    method Persist(k: Key, now: int) returns (reply: Reply)
      modifies this
      ensures Refines(old(Now()), Now(), k, Command.Persist, now, reply)
      ensures KeepsRows(old(Now()), Now(), Changed(k, Command.Persist, reply), now)
    {
      hide View, Owned, Refines, KeepsRows;
      LookupView(Now(), k, now);
      var row := GetLiveRow(k, now);
      if row.None? || row.value.expiresAt.None? {
        OnlyPurged(old(Now()), k, Command.Persist, now, Flag(false));
        return Flag(false);
      }
      keys := keys[k := row.value.(expiresAt := None, version := row.value.version + 1)];
      OwnedHere(old(Now()), k);
      Rewritten(old(Now()), Now(), k, Command.Persist, now, Flag(true));
      return Flag(true);
    }

    method IncrBy(k: Key, delta: int64, now: int) returns (reply: Reply)
      modifies this
      ensures Refines(old(Now()), Now(), k, Command.IncrBy(delta), now, reply)
      ensures KeepsRows(old(Now()), Now(), Changed(k, Command.IncrBy(delta), reply), now)
      ensures LiveRow(old(Now()), k, now).None? ==> reply == Number(delta)
    {
      hide ParseInt, FormatInt, Add64, Refines, KeepsRows, View, Owned;
      ghost var c := Command.IncrBy(delta);
      LookupView(Now(), k, now);
      var row := GetLiveRow(k, now);
      OwnedHere(old(Now()), k);
      if row.None? {
        keys := keys[k := KeyRow(StringRow, FormatInt(delta), None, 1)];
        Rewritten(old(Now()), Now(), k, c, now, Number(delta));
        return Number(delta);
      }
      if row.value.kind != StringRow {
        OnlyPurged(old(Now()), k, c, now, WrongType);
        return WrongType;
      }
      var current := ParseInt(row.value.data);
      if current.None? {
        OnlyPurged(old(Now()), k, c, now, NotInt);
        return NotInt;
      }
      var out := Add64(current.value, delta);
      keys := keys[k := row.value.(data := FormatInt(out), version := row.value.version + 1)];
      Rewritten(old(Now()), Now(), k, c, now, Number(out));
      return Number(out);
    }

    // ------------------------------------------------------------ sorted sets

    /** The upsert of one member row, shared by ZAdd and ZIncrBy.  It also says what becomes of rows that
        no key owns: a key row created over them takes them in. */
    method PutMember(k: Key, member: string, score: real, now: int, ghost c: Command, ghost reply: Reply)
      requires LiveRow(Now(), k, now).None? || Now().keys[k].kind == ZSetRow
      requires IsWriter(c) && !Failed(reply)
      requires Owned(Now()) ==>
        var e := Lookup(View(Now(), now), k);
        Act(e, c, now) ==
          (if e.None? then Some(Entry(ZSet(map[member := score]), None, 1))
           else WithMembers(e.value, MembersOf(Now(), k)[member := score]), reply)
      modifies this
      ensures Refines(old(Now()), Now(), k, c, now, reply)
      ensures KeepsRows(old(Now()), Now(), {k}, now)
      ensures LiveRow(Now(), k, now).Some? && keys[k].kind == ZSetRow
      ensures MembersOf(Now(), k) == MembersOf(Purged(old(Now()), k, now), k)[member := score]
    {
      hide Act, View, Owned, Refines, KeepsRows, IsWriter, Failed;
      MemberPut(Now(), k, member, score, now, c, reply);
      var row := GetLiveRow(k, now);
      var rows := MembersOf(Now(), k);
      if row.None? {
        keys := keys[k := KeyRow(ZSetRow, "", None, 1)];
      } else {
        keys := keys[k := row.value.(version := row.value.version + 1)];
      }
      members := members[k := rows[member := score]];
    }

    method ZAdd(k: Key, score: real, member: string, now: int) returns (reply: Reply)
      modifies this
      ensures Refines(old(Now()), Now(), k, Command.ZAdd(score, member), now, reply)
      ensures KeepsRows(old(Now()), Now(), Changed(k, Command.ZAdd(score, member), reply), now)
      ensures reply == WrongType <==> LiveRow(old(Now()), k, now).Some? && old(keys[k].kind) == StringRow
      ensures reply != WrongType ==>
        && LiveRow(Now(), k, now).Some? && keys[k].kind == ZSetRow
        && MembersOf(Now(), k) == MembersOf(Purged(old(Now()), k, now), k)[member := score]
    {
      ghost var c := Command.ZAdd(score, member);
      LookupView(Now(), k, now);
      if k in keys && !Passed(keys[k].expiresAt, now) && keys[k].kind != ZSetRow {
        OnlyPurged(Now(), k, c, now, WrongType);
        return WrongType;
      }
      PurgeKeeps(Now(), k, now);
      assert Owned(Now()) ==> OwnedAt(Purged(Now(), k, now), k);
      var existing := member in MembersOf(Purged(Now(), k, now), k);
      reply := Number(if existing then 0 else 1);
      PutMember(k, member, score, now, c, reply);
    }

    method ZIncrBy(k: Key, member: string, delta: real, now: int) returns (reply: Reply)
      modifies this
      ensures Refines(old(Now()), Now(), k, Command.ZIncrBy(member, delta), now, reply)
      ensures KeepsRows(old(Now()), Now(), Changed(k, Command.ZIncrBy(member, delta), reply), now)
    {
      ghost var c := Command.ZIncrBy(member, delta);
      LookupView(Now(), k, now);
      if k in keys && !Passed(keys[k].expiresAt, now) && keys[k].kind != ZSetRow {
        OnlyPurged(Now(), k, c, now, WrongType);
        return WrongType;
      }
      PurgeKeeps(Now(), k, now);
      assert Owned(Now()) ==> OwnedAt(Purged(Now(), k, now), k);
      var rows := MembersOf(Purged(Now(), k, now), k);
      var out := if member in rows then rows[member] + delta else delta;
      reply := Score(Some(out));
      PutMember(k, member, out, now, c, reply);
    }

    /** ZRem, ZRemRangeByScore and zpop: delete some member rows and, if any went, bump the version. */
    method DeleteMembers(k: Key, c: Command, now: int) returns (reply: Reply)
      requires c.ZRem? || c.ZRemRange? || c.ZPop?
      modifies this
      ensures Refines(old(Now()), Now(), k, c, now, reply)
      ensures KeepsRows(old(Now()), Now(), Changed(k, c, reply), now)
    {
      hide Act, Removed, View, Owned, Refines, KeepsRows;
      LookupView(Now(), k, now);
      RemovalAct(Lookup(View(Now(), now), k), c, now);
      var row := GetLiveRow(k, now);
      OwnedHere(old(Now()), k);
      if row.None? {
        reply := if c.ZPop? then MemberList([]) else Number(0);
        OnlyPurged(old(Now()), k, c, now, reply);
        return;
      }
      if row.value.kind != ZSetRow {
        OnlyPurged(old(Now()), k, c, now, WrongType);
        return WrongType;
      }
      var rows := MembersOf(Now(), k);
      RemovalAct(Some(EntryOf(row.value, rows)), c, now);
      var gone := Removed(rows, c);
      if !gone.changed {
        OnlyPurged(old(Now()), k, c, now, gone.reply);
        return gone.reply;
      }
      members := members[k := gone.rest];
      keys := keys[k := row.value.(version := row.value.version + 1)];
      Rewritten(old(Now()), Now(), k, c, now, gone.reply);
      return gone.reply;
    }

    /** ZCard, ZScore, ZCount, ZRange and ZRangeByScore: queries over a key's member rows. */
    method QueryMembers(k: Key, c: Command, now: int) returns (reply: Reply)
      requires c.ZCard? || c.ZScore? || c.ZCount? || c.ZRange? || c.ZRangeByScore?
      modifies this
      ensures Refines(old(Now()), Now(), k, c, now, reply)
      ensures KeepsRows(old(Now()), Now(), {}, now)
      ensures Now() == Purged(old(Now()), k, now)
      ensures c.ZCard? && LiveRow(Now(), k, now).Some? && keys[k].kind == ZSetRow ==>
                reply == Number(|MembersOf(Now(), k)|)
    {
      hide View, Owned, Refines, KeepsRows;
      LookupView(Now(), k, now);
      var row := GetLiveRow(k, now);
      var rows := MembersOf(Now(), k);
      if row.None? {
        reply := match c
          case ZCard => Number(0)
          case ZCount(_, _) => Number(0)
          case ZScore(_) => Score(None)
          case _ => MemberList([]);
      } else if row.value.kind != ZSetRow {
        reply := WrongType;
      } else {
        match c {
          case ZCard => reply := Number(|rows|);
          case ZScore(member) => reply := Score(if member in rows then Some(rows[member]) else None);
          case ZCount(min, max) => reply := Number(Z.ZCount(rows, min, max));
          case ZRange(start, stop) => reply := MemberList(Z.ZRange(rows, start, stop));
          case ZRangeByScore(min, max, offset, limit, rev) =>
            reply := MemberList(Z.ZRangeByScore(rows, min, max, offset, limit, rev));
        }
      }
      OnlyPurged(old(Now()), k, c, now, reply);
    }

    // ------------------------------------------------------------ several keys at once

    /** DELETE on both tables, whatever the rows' expiry; the count is of key rows that were there. */
    method Delete(ks: seq<Key>) returns (n: nat)
      modifies this
      ensures n == |old(keys).Keys * KeySet(ks)|
      ensures Now() == Tables(old(keys) - KeySet(ks), old(members) - KeySet(ks))
    {
      var gone := KeySet(ks);
      members := members - gone;
      n := |keys.Keys * gone|;
      keys := keys - gone;
    }

    method Exists(ks: seq<Key>, now: int) returns (n: nat)
      ensures n == |set k | k in ks && k in View(Now(), now)|
    {
      var found := set k | k in ks && k in keys && !Passed(keys[k].expiresAt, now);
      assert found == set k | k in ks && k in View(Now(), now);
      n := |found|;
    }

    /** All pairs or none: a wrong type on the way undoes the transaction. */
    method MSet(pairs: seq<Pair>, opts: SetOptions, now: int) returns (reply: Reply)
      modifies this
      ensures Owned(old(Now())) ==>
        Owned(Now()) && (View(Now(), now), reply) == Apply(View(old(Now()), now), Op.MSet(pairs, opts), now)
      ensures reply == Done || reply == WrongType
      ensures KeepsRows(old(Now()), Now(), if reply == Done then PairKeys(pairs) else {}, now)
    {
      hide Act, SetAct, Stored, View, Owned, LiveRow;
      var before := Now();
      for i := 0 to |pairs|
        invariant Owned(before) ==>
          Owned(Now()) && MSetAll(View(before, now), pairs[..i], opts, now) == Some(View(Now(), now))
        invariant KeepsRows(before, Now(), PairKeys(pairs[..i]), now)
      {
        ghost var mid := Now();
        assert pairs[..i + 1][..i] == pairs[..i];
        var r := Set(pairs[i].key, pairs[i].value, opts, now);
        PairKeysNext(pairs, i);
        StepSet(View(mid, now), pairs[i].key, pairs[i].value, opts, now);
        if r == WrongType {
          if Owned(before) {
            MSetFails(View(before, now), pairs, opts, now, i + 1);
          }
          keys, members := before.keys, before.members;
          return WrongType;
        }
        SetNeverNotInt(Lookup(View(mid, now), pairs[i].key), pairs[i].value, opts, now);
      }
      assert pairs[..|pairs|] == pairs;
      return Done;
    }

    // ------------------------------------------------------------ expiry

    /** Delete, through both tables, the rows of one key that is past its expiry: the lazy path, and the
        body of the cleanup loop of internal/store/d1store. */
    method Purge(k: Key, now: int) returns (n: nat)
      modifies this
      ensures n == |old(keys)| - |keys|
      ensures Now() == Purged(old(Now()), k, now)
      ensures Owned(old(Now())) ==> Owned(Now())
      ensures View(Now(), now) == View(old(Now()), now)
      ensures KeepsRows(old(Now()), Now(), {}, now)
    {
      hide View, Owned, KeepsRows;
      PurgeKeeps(Now(), k, now);
      n := 0;
      if k in keys && Passed(keys[k].expiresAt, now) {
        n := Delete([k]);
        assert KeySet([k]) == {k} && old(keys).Keys * {k} == {k};
        assert keys.Keys == old(keys).Keys - {k};
        Z.SubsetSize({k}, old(keys).Keys);
      }
    }

    /** The D1 cleanup: every key the first query found, one after another. */
    method CleanupThroughDelete(found: seq<Key>, now: int) returns (n: nat)
      modifies this
      ensures n == |old(keys)| - |keys|
      ensures Owned(old(Now())) ==> Owned(Now())
      ensures View(Now(), now) == View(old(Now()), now)
      ensures KeepsRows(old(Now()), Now(), {}, now)
    {
      hide View, Owned;
      n := 0;
      for i := 0 to |found|
        invariant n == |old(keys)| - |keys|
        invariant Owned(old(Now())) ==> Owned(Now())
        invariant View(Now(), now) == View(old(Now()), now)
        invariant KeepsRows(old(Now()), Now(), {}, now)
      {
        var deleted := Purge(found[i], now);
        n := n + deleted;
      }
    }

    /** CleanupExpired of the SQL store deletes expired key rows only, in any database that has a key of
        one of the found names.  It changes nothing that is there, but it leaves every member row owned if
        and only if none of the deleted keys had any. */
    method CleanupExpired(found: set<Key>, now: int) returns (n: nat)
      modifies this
      ensures View(Now(), now) == View(old(Now()), now)
      ensures KeepsRows(old(Now()), Now(), {}, now)
      ensures n == |old(keys)| - |keys|
      ensures keys.Keys == old(keys).Keys - CleanedUp(old(Now()), found, now) && members == old(members)
      ensures Owned(old(Now())) ==>
        (Owned(Now()) <==> forall k :: k in CleanedUp(old(Now()), found, now) ==> MembersOf(old(Now()), k) == map[])
    {
      var names := set k | k in found :: k.1;
      var gone := set k | k in keys && Passed(keys[k].expiresAt, now) && k.1 in names;
      assert gone == CleanedUp(Now(), found, now);
      n := |gone|;
      keys := keys - gone;
      assert keys.Keys == old(keys).Keys - gone;
      Z.SubsetSize(gone, old(keys).Keys);
      CleanupOwnership(old(Now()), Now(), gone);
    }

    // ------------------------------------------------------------ runs

    method Do(op: Op, now: int) returns (reply: Reply)
      modifies this
      ensures Owned(old(Now())) ==>
        Owned(Now()) && (View(Now(), now), reply) == Apply(View(old(Now()), now), op, now)
    {
      match op {
        case On(k, c) => reply := Execute(k, c, now);
        case MSet(pairs, opts) => reply := MSet(pairs, opts, now);
        case Del(ks) =>
          var n := Delete(ks);
          DeleteKeeps(old(Now()), KeySet(ks), now);
          reply := Done;
        case Purge(k) =>
          var n := Purge(k, now);
          reply := Done;
      }
    }

    method Execute(k: Key, c: Command, now: int) returns (reply: Reply)
      modifies this
      ensures Refines(old(Now()), Now(), k, c, now, reply)
      ensures KeepsRows(old(Now()), Now(), Changed(k, c, reply), now)
    {
      hide Act, Refines, KeepsRows;
      match c {
        case Get => reply := ReadRow(k, c, now);
        case TypeOf => reply := ReadRow(k, c, now);
        case Ttl => reply := ReadRow(k, c, now);
        case Set(value, opts) => reply := Set(k, value, opts, now);
        case GetDel => reply := GetDel(k, now);
        case Expire(ttl) => reply := Expire(k, ttl, now);
        case Persist => reply := Persist(k, now);
        case IncrBy(delta) => reply := IncrBy(k, delta, now);
        case ZAdd(score, member) => reply := ZAdd(k, score, member, now);
        case ZIncrBy(member, delta) => reply := ZIncrBy(k, member, delta, now);
        case ZRem(_) => reply := DeleteMembers(k, c, now);
        case ZRemRange(_, _) => reply := DeleteMembers(k, c, now);
        case ZPop(_, _) => reply := DeleteMembers(k, c, now);
        case ZCard => reply := QueryMembers(k, c, now);
        case ZScore(_) => reply := QueryMembers(k, c, now);
        case ZCount(_, _) => reply := QueryMembers(k, c, now);
        case ZRange(_, _) => reply := QueryMembers(k, c, now);
        case ZRangeByScore(_, _, _, _, _) => reply := QueryMembers(k, c, now);
      }
    }

    /** Over a whole run, with time moving forward and every member row owned at the start, the two tables
        with lazy deletion reply exactly as the timed map does. */
    method RunAll(trace: seq<Timed<Op>>, start: int) returns (replies: seq<Reply>)
      requires Owned(Now()) && InOrder(trace, start)
      modifies this
      ensures Owned(Now())
      ensures (View(Now(), LastTime(trace, start)), replies) == Run(View(old(Now()), start), trace)
    {
      replies := [];
      for i := 0 to |trace|
        invariant Owned(Now())
        invariant (View(Now(), LastTime(trace[..i], start)), replies) == Run(View(old(Now()), start), trace[..i])
      {
        var now := trace[i].now;
        assert trace[..i + 1][..i] == trace[..i];
        ViewLater(Now(), LastTime(trace[..i], start), now);
        var reply := Do(trace[i].op, now);
        replies := replies + [reply];
      }
      assert trace[..|trace|] == trace;
    }
  }

  lemma {:induction false} StrippedInOrder(trace: seq<Timed<Op>>, start: int)
    requires InOrder(trace, start)
    ensures InOrder(WithoutPurges(trace), start)
    ensures LastTime(WithoutPurges(trace), start) <= LastTime(trace, start)
  {
    if trace != [] {
      StrippedInOrder(trace[..|trace| - 1], start);
    }
  }

  /** The same tables twice, running a trace and running it without the deletions of expired keys: all other
      replies are the same, and so is what is there at any later time. */
  method PurgesChangeNoReply(t: Tables, trace: seq<Timed<Op>>, start: int, later: int)
    returns (full: seq<Reply>, stripped: seq<Reply>, t1: Tables, t2: Tables)
    requires Owned(t) && InOrder(trace, start) && LastTime(trace, start) <= later
    ensures |full| == |trace| && Heard(trace, full) == stripped
    ensures Owned(t1) && Owned(t2) && View(t1, later) == View(t2, later)
  {
    hide View, Owned, Run, WithoutPurges, Heard;
    StrippedInOrder(trace, start);
    var a := new Store(t);
    full := a.RunAll(trace, start);
    var b := new Store(t);
    stripped := b.RunAll(WithoutPurges(trace), start);
    t1, t2 := a.Now(), b.Now();
    PurgesAreInvisible(View(t, start), trace, start, later);
    ViewLater(t1, LastTime(trace, start), later);
    ViewLater(t2, LastTime(WithoutPurges(trace), start), later);
  }

  function PairKeys(pairs: seq<Pair>): set<Key> {
    set p | p in pairs :: p.key
  }

  lemma PairKeysNext(pairs: seq<Pair>, i: nat)
    requires i < |pairs|
    ensures PairKeys(pairs[..i + 1]) == PairKeys(pairs[..i]) + {pairs[i].key}
  {
    assert pairs[..i + 1] == pairs[..i] + [pairs[i]];
  }

  lemma StepSet(v: Db, k: Key, value: string, opts: SetOptions, now: int)
    ensures
      var (e, reply) := SetAct(Lookup(v, k), value, opts, now);
      Step(v, k, Command.Set(value, opts), now) == (Stored(v, k, e, now), reply)
  {
  }

  lemma SetNeverNotInt(e: Option<Entry>, value: string, opts: SetOptions, now: int)
    ensures !SetAct(e, value, opts, now).1.NotInt?
  {
  }

  /** A failing prefix fails the whole MSET. */
  lemma {:induction false} MSetFails(v: Db, pairs: seq<Pair>, opts: SetOptions, now: int, i: nat)
    requires i <= |pairs| && MSetAll(v, pairs[..i], opts, now).None?
    ensures MSetAll(v, pairs, opts, now).None?
  {
    if i < |pairs| {
      var n := |pairs| - 1;
      assert pairs[..n][..i] == pairs[..i];
      MSetFails(v, pairs[..n], opts, now, i);
    } else {
      assert pairs[..i] == pairs;
    }
  }

  lemma ViewLater(t: Tables, now: int, later: int)
    requires now <= later
    ensures Live(View(t, now), later) == View(t, later)
  {
  }

  lemma DeleteKeeps(t: Tables, gone: set<Key>, now: int)
    ensures View(Tables(t.keys - gone, t.members - gone), now) == View(t, now) - gone
    ensures Owned(t) ==> Owned(Tables(t.keys - gone, t.members - gone))
  {
    var u := Tables(t.keys - gone, t.members - gone);
    if Owned(t) {
      forall k
        ensures OwnedAt(u, k)
      {
        assert OwnedAt(t, k);
      }
    }
  }

  function CleanedUp(t: Tables, found: set<Key>, now: int): set<Key> {
    set k | k in t.keys && Passed(t.keys[k].expiresAt, now) && exists f :: f in found && f.1 == k.1
  }

  lemma CleanupOwnership(t: Tables, u: Tables, gone: set<Key>)
    requires u == Tables(t.keys - gone, t.members) && gone <= t.keys.Keys
    ensures Owned(t) ==> (Owned(u) <==> forall k :: k in gone ==> MembersOf(t, k) == map[])
  {
    if Owned(t) {
      if forall k :: k in gone ==> MembersOf(t, k) == map[] {
        forall k
          ensures OwnedAt(u, k)
        {
          assert OwnedAt(t, k);
        }
      }
      if Owned(u) {
        forall k | k in gone
          ensures MembersOf(t, k) == map[]
        {
          assert OwnedAt(u, k);
        }
      }
    }
  }

  lemma FoundIsCleaned(t: Tables, k: Key, now: int)
    requires k in t.keys && Passed(t.keys[k].expiresAt, now)
    ensures k in CleanedUp(t, {k}, now)
  {
  }

  /** Why the SQL cleanup is kept out of the runs above: a sorted set expires, the cleanup deletes its key
      row, and the next ZADD to that key brings the old member back, so that a set with one member has two. */
  method CleanupResurrects(k: Key) returns (card: Reply)
    ensures card == Number(2)
  {
    hide Refines, KeepsRows, Owned, View, Act, CleanedUp;
    ghost var t := Tables(map[k := KeyRow(ZSetRow, "", Some(5), 1)], map[k := map["old" := 1.0]]);
    var s := new Store(Tables(map[k := KeyRow(ZSetRow, "", Some(5), 1)], map[k := map["old" := 1.0]]));
    FoundIsCleaned(t, k, 10);
    var n := s.CleanupExpired({k}, 10);
    assert k !in s.keys && s.members == map[k := map["old" := 1.0]];
    var added := s.ZAdd(k, 2.0, "new", 10);
    var both: Z.Members := map["old" := 1.0, "new" := 2.0];
    assert MembersOf(s.Now(), k) == both;
    card := s.QueryMembers(k, ZCard, 10);
    assert both.Keys == {"old", "new"};
  }

  /** Outside a transaction the lazy deletion of a GET is three statements: a SELECT that finds the row past
      its expiry, and a DELETE on each table.  An increment between the first and the others finds the row
      expired too, starts the counter again and reports success; the two DELETEs then take the new counter.
      In either order of the two commands as a whole the counter stays. */
  method LazyGetLosesUpdate(t: Tables, k: Key, delta: int64, now: int) returns (reply: Reply, after: Tables)
    requires k in t.keys && Passed(t.keys[k].expiresAt, now)
    ensures reply == Number(delta) && k !in after.keys
    ensures
      var v := View(t, now);
      var getFirst := Step(Step(v, k, Command.Get, now).0, k, Command.IncrBy(delta), now);
      var incrFirst := Step(Step(v, k, Command.IncrBy(delta), now).0, k, Command.Get, now);
      && getFirst.1 == Number(delta) && k in getFirst.0
      && k in incrFirst.0
  {
    hide FormatInt, ParseInt;
    var s := new Store(t);
    var seen := s.keys[k];
    LookupView(t, k, now);
    reply := s.IncrBy(k, delta, now);
    if Passed(seen.expiresAt, now) {
      s.members := s.members - {k};
      s.keys := s.keys - {k};
    }
    after := s.Now();
  }

  /** SET and EXPIRE on a string that is there, one after the other. */
  lemma SetAndExpire(v: Db, k: Key, value: string, ttl: int, now: int)
    requires k in v && v[k].content.Str? && ttl > 0
    ensures
      var set0, expire, n := Command.Set(value, SetOptions(0, false, false, false)), Command.Expire(ttl), v[k].version;
      && Step(v, k, set0, now).0 == v[k := Entry(Str(value), None, n + 1)]
      && Step(Step(v, k, set0, now).0, k, expire, now).0 == v[k := Entry(Str(value), Some(now + ttl), n + 2)]
      && Step(Step(v, k, expire, now).0, k, set0, now).0 == v[k := Entry(Str(value), None, n + 2)]
  {
    hide FormatInt, ParseInt;
    var set0, expire, n := Command.Set(value, SetOptions(0, false, false, false)), Command.Expire(ttl), v[k].version;
    var written, expiring := Entry(Str(value), None, n + 1), v[k].(expiresAt := Some(now + ttl), version := n + 1);
    assert Step(v, k, set0, now).0 == v[k := written];
    assert Step(v, k, expire, now).0 == v[k := expiring];
    var last := Entry(Str(value), Some(now + ttl), n + 2);
    assert v[k := written][k := last] == v[k := last];
    assert v[k := expiring][k := Entry(Str(value), None, n + 2)] == v[k := Entry(Str(value), None, n + 2)];
  }

  /** EXPIRE outside a transaction is a SELECT and an UPDATE that writes the version it read plus one.  A SET
      between the two is not undone: value and expiry are as if the EXPIRE had come after it.  But the version
      counts one write where either order of the two commands as a whole counts two. */
  method ExpireAroundSet(t: Tables, k: Key, value: string, ttl: int, now: int) returns (after: Tables)
    requires Owned(t) && LiveRow(t, k, now).Some? && t.keys[k].kind == StringRow && ttl > 0
    ensures
      var v, set0, expire := View(t, now), Command.Set(value, SetOptions(0, false, false, false)), Command.Expire(ttl);
      var setFirst := Step(Step(v, k, set0, now).0, k, expire, now).0;
      var expireFirst := Step(Step(v, k, expire, now).0, k, set0, now).0;
      && k in setFirst && k in expireFirst
      && setFirst[k].version == expireFirst[k].version == t.keys[k].version + 2
      && setFirst[k].expiresAt != expireFirst[k].expiresAt
      && View(after, now) == setFirst[k := setFirst[k].(version := t.keys[k].version + 1)]
  {
    hide Step, View, Owned, KeepsRows;
    var opts := SetOptions(0, false, false, false);
    var s := new Store(t);
    var seen := s.GetLiveRow(k, now);
    LookupView(t, k, now);
    SetAndExpire(View(t, now), k, value, ttl, now);
    var wrote := s.Set(k, value, opts, now);
    ghost var mid := s.Now();
    LookupView(mid, k, now);
    s.keys := s.keys[k := s.keys[k].(expiresAt := Some(now + ttl), version := seen.value.version + 1)];
    after := s.Now();
    ViewAfter(mid, after, k, now);
    LookupView(after, k, now);
  }

  /** GET's answer from the row it found. */
  function RowReply(row: Option<KeyRow>): Reply {
    if row.None? then Value(None)
    else if row.value.kind != StringRow then WrongType
    else Value(Some(EntryOf(row.value, map[])))
  }
}
