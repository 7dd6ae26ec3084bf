/** How entries are found, counted, locked and removed, seen without program counters: what a
    session holds is a few flags, and the protocol has one action for each kind of effect. */
module EntryProtocol {
  import opened Wrappers

  type Key = string
  type Sid = nat
  type Eid = nat

  datatype Entry = Entry(key: Key, cnt: int, owner: Option<Sid>)

  /** Whether the session is looking at an entry that was there before, or one that it made. */
  datatype Look = NotLooking | FoundOld | Made

  datatype View = View(
    key: Key,
    ml: bool,           // it holds the mutex of the map
    e: Option<Eid>,     // the entry it points to
    counted: bool,      // it is included in the entry's reference count
    owns: bool,         // it holds the entry's own mutex
    unsettled: bool,    // it still has to make map and count agree
    look: Look)
  {
    predicate On(i: Eid)
    {
      e == Some(i)
    }
  }

  datatype State = State(
    ml: Option<Sid>,
    ma: map<Key, Eid>,
    entries: seq<Entry>,
    views: map<Sid, View>)

  function Counted(views: map<Sid, View>, e: Eid): set<Sid>
  {
    set s | s in views && views[s].counted && views[s].On(e)
  }

  predicate InMap(st: State, e: Eid)
    requires e < |st.entries|
  {
    st.entries[e].key in st.ma && st.ma[st.entries[e].key] == e
  }

  // ----- the invariant -----

  /** The map's mutex is held by exactly the session that is between its Lock and Unlock. */
  ghost predicate MlInv(st: State)
  {
    && (st.ml.Some? ==> st.ml.value in st.views)
    && (forall s :: s in st.views ==> (st.views[s].ml <==> st.ml == Some(s)))
    && (forall s :: s in st.views ==> (st.views[s].unsettled ==> st.views[s].ml))
  }

  /** Pointers lead to entries of the session's own key. */
  ghost predicate RefInv(st: State)
  {
    && (forall k :: k in st.ma ==> st.ma[k] < |st.entries| && st.entries[st.ma[k]].key == k)
    && (forall s :: s in st.views && st.views[s].e.Some? ==>
          st.views[s].e.value < |st.entries| && st.entries[st.views[s].e.value].key == st.views[s].key)
    && (forall s :: s in st.views && st.views[s].e == None ==>
          !st.views[s].counted && !st.views[s].owns && !st.views[s].unsettled)
  }

  /** The reference count counts. */
  ghost predicate CountInv(st: State)
  {
    forall e :: 0 <= e < |st.entries| ==> st.entries[e].cnt == |Counted(st.views, e)|
  }

  predicate SettlingOn(st: State, e: Eid)
  {
    && st.ml.Some? && st.ml.value in st.views
    && st.views[st.ml.value].unsettled && st.views[st.ml.value].On(e)
  }

  /** Whoever is counted on an entry, or is settling it, finds it in the map. */
  ghost predicate UsersInMap(st: State)
    requires RefInv(st)
  {
    forall s :: s in st.views && (st.views[s].counted || st.views[s].unsettled) ==>
      InMap(st, st.views[s].e.value)
  }

  /** The map holds no other entries. */
  ghost predicate MapHasUsers(st: State)
  {
    forall e :: 0 <= e < |st.entries| && InMap(st, e) ==>
      st.entries[e].cnt >= 1 || SettlingOn(st, e)
  }

  /** Who owns an entry's mutex is its owner, and the owner knows it. */
  ghost predicate OwnerInv(st: State)
  {
    && (forall s :: s in st.views && st.views[s].owns && st.views[s].e.Some? ==>
          st.views[s].e.value < |st.entries| && st.entries[st.views[s].e.value].owner == Some(s))
    && (forall e :: 0 <= e < |st.entries| && st.entries[e].owner.Some? ==>
          var s := st.entries[e].owner.value;
          s in st.views && st.views[s].owns && st.views[s].On(e))
  }

  /** An entry that was found had users. */
  ghost predicate FoundInv(st: State)
  {
    forall s :: s in st.views && st.views[s].look.FoundOld? && st.views[s].e.Some? ==>
      && st.views[s].unsettled && st.views[s].e.value < |st.entries|
      && st.entries[st.views[s].e.value].cnt >= 1
  }

  /** An entry that was made is known to its maker alone. */
  ghost predicate MadeInv(st: State)
  {
    && (forall s, t :: s in st.views && t in st.views && st.views[s].look.Made? && t != s ==>
          st.views[t].e != st.views[s].e)
    && (forall s :: s in st.views && st.views[s].look.Made? ==>
          st.views[s].unsettled && !st.views[s].owns)
  }

  ghost predicate Inv(st: State)
  {
    && MlInv(st) && RefInv(st) && CountInv(st)
    && UsersInMap(st) && MapHasUsers(st) && OwnerInv(st)
    && FoundInv(st) && MadeInv(st)
  }

  // ----- the actions -----

  datatype Action = Arrive(key: Key) | TakeMl | Find | Make | Count | Own | GiveUp
                  | LeaveMl | Uncount | Settle | Disown | Stay

  predicate Can(st: State, s: Sid, a: Action)
  {
    if a.Arrive? then s !in st.views
    else
      && s in st.views
      && var v := st.views[s];
      match a
      case TakeMl => st.ml == None
      case Find => v.ml && !v.unsettled && v.e == None && v.key in st.ma
      case Make => v.ml && !v.unsettled && v.e == None && v.key !in st.ma
      case Count => v.unsettled && !v.counted && v.e.Some? && v.e.value < |st.entries|
      case Own => !v.owns && v.e.Some? && v.e.value < |st.entries| && st.entries[v.e.value].owner == None
                  && (v.counted || v.unsettled)
      case GiveUp => v.look.FoundOld? && !v.counted && !v.owns
      case LeaveMl => v.ml && !v.unsettled
      case Uncount => v.ml && v.counted && !v.unsettled && v.e.Some? && v.e.value < |st.entries|
      case Settle => v.unsettled && !v.counted && v.look.NotLooking? && v.e.Some? && v.e.value < |st.entries|
      case Disown => v.owns && !v.counted && !v.unsettled && v.e.Some? && v.e.value < |st.entries|
      case Stay => true
  }

  function SetEntry(st: State, e: Eid, entry: Entry): State
    requires e < |st.entries|
  {
    st.(entries := st.entries[e := entry])
  }

  function Do(st: State, s: Sid, a: Action): State
    requires Can(st, s, a)
  {
    if a.Arrive? then
      st.(views := st.views[s := View(a.key, false, None, false, false, false, NotLooking)])
    else
      var v := st.views[s];
      match a
      case TakeMl => st.(ml := Some(s), views := st.views[s := v.(ml := true)])
      case Find =>
        st.(views := st.views[s := v.(e := Some(st.ma[v.key]), unsettled := true, look := FoundOld)])
      case Make =>
        st.(ma := st.ma[v.key := |st.entries|], entries := st.entries + [Entry(v.key, 0, None)],
            views := st.views[s := v.(e := Some(|st.entries|), unsettled := true, look := Made)])
      case Count =>
        SetEntry(st, v.e.value, st.entries[v.e.value].(cnt := st.entries[v.e.value].cnt + 1))
          .(views := st.views[s := v.(counted := true, unsettled := false, look := NotLooking)])
      case Own =>
        SetEntry(st, v.e.value, st.entries[v.e.value].(owner := Some(s)))
          .(views := st.views[s := v.(owns := true, look := NotLooking)])
      case GiveUp =>
        st.(views := st.views[s := v.(e := None, unsettled := false, look := NotLooking)])
      case LeaveMl => st.(ml := None, views := st.views[s := v.(ml := false)])
      case Uncount =>
        SetEntry(st, v.e.value, st.entries[v.e.value].(cnt := st.entries[v.e.value].cnt - 1))
          .(views := st.views[s := v.(counted := false, unsettled := true)])
      case Settle =>
        (if st.entries[v.e.value].cnt < 1 then st.(ma := st.ma - {v.key}) else st)
          .(views := st.views[s := v.(unsettled := false)])
      case Disown =>
        SetEntry(st, v.e.value, st.entries[v.e.value].(owner := None))
          .(views := st.views[s := v.(owns := false, e := None)])
      case Stay => st
  }

  // ----- every action keeps it -----

  /** One session's change shows in the sets of counted sessions. */
  lemma CountedChange(views: map<Sid, View>, s: Sid, v: View, e: Eid)
    ensures var before := s in views && views[s].counted && views[s].On(e);
            var after := v.counted && v.On(e);
            |Counted(views[s := v], e)|
              == |Counted(views, e)| + (if after then 1 else 0) - (if before then 1 else 0)
  {
    CardChange(Counted(views, e), Counted(views[s := v], e), s);
  }

  lemma CardChange(a: set<Sid>, b: set<Sid>, s: Sid)
    requires a - {s} == b - {s}
    ensures |b| == |a| + (if s in b then 1 else 0) - (if s in a then 1 else 0)
  {
    var rest := a - {s};
    assert a == if s in a then rest + {s} else rest;
    assert b == if s in b then rest + {s} else rest;
  }

  lemma CountKept(st: State, s: Sid, a: Action)
    requires Inv(st) && Can(st, s, a)
    ensures CountInv(Do(st, s, a))
  {
    var st' := Do(st, s, a);
    forall e | 0 <= e < |st'.entries|
      ensures st'.entries[e].cnt == |Counted(st'.views, e)|
    {
      CountedChange(st.views, s, st'.views[s], e);
      if e == |st.entries| {
        assert Counted(st.views, e) == {};
      }
      assert st.views[s := st'.views[s]] == st'.views;
    }
  }

  lemma MlKept(st: State, s: Sid, a: Action)
    requires MlInv(st) && RefInv(st) && Can(st, s, a)
    ensures MlInv(Do(st, s, a))
  {
  }

  lemma RefKeptByMapChange(st: State, s: Sid, a: Action)
    requires MlInv(st) && RefInv(st) && Can(st, s, a)
    requires a.Make? || a.Find? || a.Settle?
    ensures RefInv(Do(st, s, a))
  {
  }

  lemma RefKept(st: State, s: Sid, a: Action)
    requires MlInv(st) && RefInv(st) && Can(st, s, a)
    ensures RefInv(Do(st, s, a))
  {
    if a.Make? || a.Find? || a.Settle? {
      RefKeptByMapChange(st, s, a);
    }
  }

  /** A count below one leaves nobody counted. */
  lemma NobodyCounted(st: State, e: Eid)
    requires CountInv(st) && e < |st.entries| && st.entries[e].cnt < 1
    ensures forall s :: s in st.views && st.views[s].On(e) ==> !st.views[s].counted
  {
    forall s | s in st.views && st.views[s].On(e)
      ensures !st.views[s].counted
    {
      assert s !in Counted(st.views, e);
    }
  }

  lemma UsersKeptByMapChange(st: State, s: Sid, a: Action)
    requires MlInv(st) && RefInv(st) && CountInv(st) && UsersInMap(st) && Can(st, s, a)
    requires (a.Make? || a.Settle?) && RefInv(Do(st, s, a))
    ensures UsersInMap(Do(st, s, a))
  {
    if a.Settle? && st.entries[st.views[s].e.value].cnt < 1 {
      NobodyCounted(st, st.views[s].e.value);
    }
  }

  lemma UsersKept(st: State, s: Sid, a: Action)
    requires MlInv(st) && RefInv(st) && CountInv(st) && UsersInMap(st) && Can(st, s, a)
    requires RefInv(Do(st, s, a))
    ensures UsersInMap(Do(st, s, a))
  {
    if a.Make? || a.Settle? {
      UsersKeptByMapChange(st, s, a);
    }
  }

  lemma MapHasUsersKeptByMapChange(st: State, s: Sid, a: Action)
    requires MlInv(st) && RefInv(st) && MapHasUsers(st) && Can(st, s, a)
    requires a.Make? || a.Settle?
    ensures MapHasUsers(Do(st, s, a))
  {
  }

  lemma MapHasUsersKept(st: State, s: Sid, a: Action)
    requires MlInv(st) && RefInv(st) && CountInv(st) && MapHasUsers(st) && Can(st, s, a)
    requires a.GiveUp? ==> FoundInv(st)
    ensures MapHasUsers(Do(st, s, a))
  {
    if a.Make? || a.Settle? {
      MapHasUsersKeptByMapChange(st, s, a);
    }
  }

  lemma OwnerKeptByOwn(st: State, s: Sid, a: Action)
    requires RefInv(st) && OwnerInv(st) && Can(st, s, a) && a.Own?
    ensures OwnerInv(Do(st, s, a))
  {
  }

  lemma OwnerKeptByDisown(st: State, s: Sid, a: Action)
    requires RefInv(st) && OwnerInv(st) && Can(st, s, a) && a.Disown?
    ensures OwnerInv(Do(st, s, a))
  {
  }

  lemma OwnerKeptByCountChange(st: State, s: Sid, a: Action)
    requires MlInv(st) && RefInv(st) && OwnerInv(st) && Can(st, s, a)
    requires a.Count? || a.Uncount? || a.Make?
    ensures OwnerInv(Do(st, s, a))
  {
  }

  lemma OwnerKept(st: State, s: Sid, a: Action)
    requires MlInv(st) && RefInv(st) && OwnerInv(st) && Can(st, s, a)
    ensures OwnerInv(Do(st, s, a))
  {
    if a.Own? {
      OwnerKeptByOwn(st, s, a);
    } else if a.Disown? {
      OwnerKeptByDisown(st, s, a);
    } else if a.Count? || a.Uncount? || a.Make? {
      OwnerKeptByCountChange(st, s, a);
    }
  }

  lemma FoundKept(st: State, s: Sid, a: Action)
    requires MlInv(st) && RefInv(st) && MapHasUsers(st) && FoundInv(st) && Can(st, s, a)
    ensures FoundInv(Do(st, s, a))
  {
  }

  lemma MadeKeptByLook(st: State, s: Sid, a: Action)
    requires MlInv(st) && RefInv(st) && MadeInv(st) && Can(st, s, a)
    requires a.Make? || a.Find?
    ensures MadeInv(Do(st, s, a))
  {
  }

  lemma MadeKept(st: State, s: Sid, a: Action)
    requires MlInv(st) && RefInv(st) && MadeInv(st) && Can(st, s, a)
    ensures MadeInv(Do(st, s, a))
  {
    if a.Make? || a.Find? {
      MadeKeptByLook(st, s, a);
    }
  }

  lemma ActionInv(st: State, s: Sid, a: Action)
    requires Inv(st) && Can(st, s, a)
    ensures Inv(Do(st, s, a))
  {
    MlKept(st, s, a);
    RefKept(st, s, a);
    CountKept(st, s, a);
    UsersKept(st, s, a);
    MapHasUsersKept(st, s, a);
    OwnerKept(st, s, a);
    FoundKept(st, s, a);
    MadeKept(st, s, a);
  }

  // ----- what the invariant says about two sessions -----

  /** Sessions that use a key at the same time use one entry. */
  lemma SameEntry(st: State, s: Sid, t: Sid)
    requires MlInv(st) && RefInv(st) && UsersInMap(st)
    requires s in st.views && (st.views[s].counted || st.views[s].unsettled)
    requires t in st.views && (st.views[t].counted || st.views[t].unsettled)
    requires st.views[s].key == st.views[t].key
    ensures st.views[s].e == st.views[t].e && st.views[s].e.Some?
  {
  }

  /** An entry's mutex has one owner. */
  lemma OneOwner(st: State, s: Sid, t: Sid)
    requires RefInv(st) && OwnerInv(st)
    requires s in st.views && t in st.views && st.views[s].owns && st.views[t].owns
    requires st.views[s].e == st.views[t].e
    ensures s == t
  {
  }
}
