/** What a set of operations says about one object, without any order: the
    elements it created, the decisions about their visibility, and the writes to
    its keys. A state represents such a history in exactly one way. */
module Histories {
  import opened OpIds
  import opened Values
  import opened Rga
  import opened TreeOrder
  import opened Ops
  import opened Objects

  /** A decision that an element is deleted or visible, made under an identity. */
  datatype Event = Event(target: OpID, deleted: bool, id: OpID)

  datatype Write = Write(key: Str, entry: Entry)

  // ---- sequences ----

  /** An element carries the newest decision about it, or is as created. */
  ghost predicate Decided(e: Elem, events: set<Event>) {
    && (e == e.Core() || Event(e.id, e.deleted, e.visId) in events)
    && (forall v :: v in events && v.target == e.id ==> !e.visId.Less(v.id))
    && !e.visId.Less(e.id)
    && e.visId.actor != []
  }

  ghost predicate HasCore(s: seq<Elem>, c: Elem) {
    exists i :: 0 <= i < |s| && s[i].Core() == c
  }

  ghost predicate SameCores(s: seq<Elem>, cores: set<Elem>) {
    && (forall i :: 0 <= i < |s| ==> s[i].Core() in cores)
    && (forall c :: c in cores ==> HasCore(s, c))
  }

  ghost predicate AllDecided(s: seq<Elem>, events: set<Event>) {
    forall i :: 0 <= i < |s| ==> Decided(s[i], events)
  }

  /** s is the document order of these elements with these decisions. */
  ghost predicate SeqOf(s: seq<Elem>, cores: set<Elem>, events: set<Event>) {
    && TreeOrdered(s) && UniqueIds(s)
    && SameCores(s, cores)
    && AllDecided(s, events)
  }

  ghost predicate CoreIdsUnique(cores: set<Elem>) {
    forall c, d :: c in cores && d in cores && c.id == d.id ==> c == d
  }

  ghost predicate EventsSound(events: set<Event>) {
    && (forall v :: v in events ==> v.target.Less(v.id) && v.id.actor != [])
    && (forall v, w :: v in events && w in events && v.target == w.target && v.id == w.id ==> v == w)
  }

  ghost predicate TargetsKnown(cores: set<Elem>, events: set<Event>) {
    forall v :: v in events ==> exists c :: c in cores && c.id == v.target
  }

  lemma SameDecision(e: Elem, f: Elem, events: set<Event>)
    requires Decided(e, events) && Decided(f, events) && EventsSound(events)
    requires e.Core() == f.Core()
    ensures e == f
  {
    hide OpID.Less;
    LessIsTotal(e.visId, f.visId);
    if e != e.Core() { LessIsTotal(e.visId, e.id); }
    if f != f.Core() { LessIsTotal(f.visId, f.id); }
  }

  lemma SameCoresSameLinks(s: seq<Elem>, t: seq<Elem>, cores: set<Elem>)
    requires SameCores(s, cores) && SameCores(t, cores)
    ensures SameLinks(s, t)
  {
    forall i | 0 <= i < |s| ensures HasLink(t, s[i]) {
      assert HasCore(t, s[i].Core());
      var k :| 0 <= k < |t| && t[k].Core() == s[i].Core();
    }
    forall i | 0 <= i < |t| ensures HasLink(s, t[i]) {
      assert HasCore(s, t[i].Core());
      var k :| 0 <= k < |s| && s[k].Core() == t[i].Core();
    }
  }

  /** A history of a sequence has one state. */
  lemma SeqOfIsUnique(s: seq<Elem>, t: seq<Elem>, cores: set<Elem>, events: set<Event>)
    requires SeqOf(s, cores, events) && SeqOf(t, cores, events)
    requires CoreIdsUnique(cores) && EventsSound(events)
    ensures s == t
  {
    hide OpID.Less, TreeOrdered, UniqueIds, Decided, HasCore, EventsSound;
    SameCoresSameLinks(s, t, cores);
    OrderIsUnique(s, t);
    forall i | 0 <= i < |s| ensures s[i] == t[i] {
      assert s[i].Core() in cores && t[i].Core() in cores;
      assert s[i].Core().id == t[i].Core().id;
      SameDecision(s[i], t[i], events);
    }
  }

  // ---- one insert ----

  ghost predicate RefPresent(s: seq<Elem>, after: Option<OpID>, id: OpID) {
    after.Some? ==> Contains(s, after.value) && after.value.Less(id)
  }

  lemma InsertCores(s: seq<Elem>, t: seq<Elem>, p: nat, e: Elem, cores: set<Elem>)
    requires Inserted(s, t, p, e) && SameCores(s, cores) && e == e.Core()
    ensures SameCores(t, cores + {e})
  {
    forall i | 0 <= i < |t| ensures t[i].Core() in cores + {e} {
      if i < p { assert t[i] == s[i]; } else if i > p { assert t[i] == s[i - 1]; }
    }
    forall c | c in cores + {e} ensures HasCore(t, c) {
      if c in cores {
        assert HasCore(s, c);
        var k :| 0 <= k < |s| && s[k].Core() == c;
        assert t[if k < p then k else k + 1] == s[k];
      } else {
        assert t[p].Core() == c;
      }
    }
  }

  lemma InsertDecided(s: seq<Elem>, t: seq<Elem>, p: nat, e: Elem, events: set<Event>)
    requires Inserted(s, t, p, e) && AllDecided(s, events) && Decided(e, events)
    ensures AllDecided(t, events)
  {
    hide Decided;
    forall i | 0 <= i < |t| ensures Decided(t[i], events) {
      if i < p { assert t[i] == s[i]; } else if i > p { assert t[i] == s[i - 1]; }
    }
  }

  /** A new element is as created: nothing has decided about it. */
  lemma FreshDecided(s: seq<Elem>, e: Elem, cores: set<Elem>, events: set<Event>)
    requires SameCores(s, cores) && TargetsKnown(cores, events)
    requires !Contains(s, e.id) && e == e.Core() && e.id.actor != []
    ensures Decided(e, events)
  {
    LessIsTotal(e.id, e.id);
    forall v | v in events ensures v.target != e.id {
      var c :| c in cores && c.id == v.target;
      assert HasCore(s, c);
    }
  }

  function InsertOnce(s: seq<Elem>, after: Option<OpID>, e: Elem): seq<Elem> {
    if Contains(s, e.id) then s else InsertAfter(s, after, e)
  }

  lemma InsertOnceSeqOf(s: seq<Elem>, after: Option<OpID>, e: Elem, cores: set<Elem>, events: set<Event>)
    requires SeqOf(s, cores, events) && CoreIdsUnique(cores + {e}) && TargetsKnown(cores, events)
    requires e == e.Core() && e.id.actor != [] && e.after == FormatRef(after)
    requires RefPresent(s, after, e.id)
    ensures SeqOf(InsertOnce(s, after, e), cores + {e}, events)
    ensures Contains(InsertOnce(s, after, e), e.id)
  {
    hide OpID.Less, TreeOrdered, UniqueIds, Decided, HasCore, TargetsKnown;
    if Contains(s, e.id) {
      var k := IndexOf(s, e.id);
      assert s[k].Core() in cores;
      assert cores + {e} == cores;
    } else {
      var p := InsertPosition(s, after, e.id);
      var t := InsertAfter(s, after, e);
      hide InsertAfter, InsertPosition;
      InsertKeepsTreeOrder(s, after, e);
      InsertCores(s, t, p, e, cores);
      FreshDecided(s, e, cores, events);
      InsertDecided(s, t, p, e, events);
      assert t[p].id == e.id;
    }
  }

  // ---- one decision ----

  lemma SetVisibleDecided(e: Elem, deleted: bool, visId: OpID, events: set<Event>)
    requires Decided(e, events) && visId.actor != []
    requires e.id.Less(visId)
    ensures Decided(SetVisible(e, deleted, visId), events + {Event(e.id, deleted, visId)})
  {
    hide OpID.Less;
    LessIsTotal(e.visId, visId);
    LessIsTotal(visId, visId);
    LessIsTotal(e.id, visId);
    if visId.Greater(e.visId) {
      forall v | v in events && v.target == e.id ensures !visId.Less(v.id) {
        LessIsStrictOrder(e.visId, visId, v.id);
      }
    }
  }

  lemma OtherDecided(e: Elem, events: set<Event>, v: Event)
    requires Decided(e, events) && v.target != e.id
    ensures Decided(e, events + {v})
  {
  }

  lemma SetVisibilitySeqOf(s: seq<Elem>, id: OpID, deleted: bool, visId: OpID, cores: set<Elem>, events: set<Event>)
    requires SeqOf(s, cores, events) && Contains(s, id)
    requires id.Less(visId) && visId.actor != []
    ensures SeqOf(SetVisibility(s, id, deleted, visId), cores, events + {Event(id, deleted, visId)})
  {
    hide OpID.Less, Decided, TreeOrdered, UniqueIds, SameCores;
    var t := SetVisibility(s, id, deleted, visId);
    var v := Event(id, deleted, visId);
    var k := IndexOf(s, id);
    assert UniqueIds(t) && TreeOrdered(t) && SameCores(t, cores) by { SameShape(s, t, cores); }
    forall i | 0 <= i < |t| ensures Decided(t[i], events + {v}) {
      if i == k {
        SetVisibleDecided(s[k], deleted, visId, events);
      } else {
        assert s[i].id != id by { OnlyAt(s, k, i); }
        OtherDecided(s[i], events, v);
      }
    }
  }

  lemma OnlyAt(s: seq<Elem>, k: nat, i: nat)
    requires UniqueIds(s) && k < |s| && i < |s| && i != k
    ensures s[i].id != s[k].id
  {
  }

  /** Order and contents do not depend on visibility. */
  lemma SameShape(s: seq<Elem>, t: seq<Elem>, cores: set<Elem>)
    requires |s| == |t| && forall i :: 0 <= i < |s| ==> s[i].Core() == t[i].Core()
    requires TreeOrdered(s) && UniqueIds(s) && SameCores(s, cores)
    ensures TreeOrdered(t) && UniqueIds(t) && SameCores(t, cores)
  {
    hide OpID.Less, Print, NearestSmaller;
    assert forall i :: 0 <= i < |s| ==> s[i].Core().id == s[i].id && t[i].Core().id == t[i].id;
    assert forall i :: 0 <= i < |s| ==> s[i].Core().after == s[i].after && t[i].Core().after == t[i].after;
    forall j | 0 <= j < |t| ensures t[j].after == RefAt(t, NearestSmaller(t, t[j].id, j)) {
      NearestPrefix(s, t, t[j].id, j);
    }
    forall c | c in cores ensures HasCore(t, c) { assert HasCore(s, c); }
  }

  // ---- a run of inserts, a run of deletes ----

  function SetOf<T(==)>(s: seq<T>): set<T> {
    set x | x in s
  }

  /** The elements a run of runes creates, each behind the previous one. */
  function RunElems(after: Option<OpID>, runes: seq<Str>, id: OpID): (r: seq<Elem>)
    ensures |r| == |runes|
    ensures forall i :: 0 <= i < |r| ==> r[i].id == OpID(id.counter + i, id.actor) && r[i] == r[i].Core()
    decreases |runes|
  {
    if runes == [] then []
    else [Elem(id, FormatRef(after), Text(runes[0]), false, id)]
         + RunElems(Some(id), runes[1..], OpID(id.counter + 1, id.actor))
  }

  lemma {:induction false} InsertRunSeqOf(s: seq<Elem>, after: Option<OpID>, runes: seq<Str>, id: OpID,
                                          cores: set<Elem>, events: set<Event>)
    requires SeqOf(s, cores, events) && TargetsKnown(cores, events)
    requires CoreIdsUnique(cores + SetOf(RunElems(after, runes, id)))
    requires id.actor != [] && RefPresent(s, after, id)
    ensures SeqOf(InsertRun(s, after, runes, id), cores + SetOf(RunElems(after, runes, id)), events)
    decreases |runes|
  {
    hide *;
    var all := RunElems(after, runes, id);
    if runes == [] {
      NoRun(s, after, runes, id, cores);
    } else {
      var next := OpID(id.counter + 1, id.actor);
      var e, rest := all[0], RunElems(Some(id), runes[1..], next);
      RunStep(after, runes, id, cores);
      InsertRunStep(s, after, runes, id);
      UniqueSubset(cores + {e}, cores + SetOf(all));
      InsertOnceSeqOf(s, after, e, cores, events);
      KnownMore(cores, {e}, events);
      NextPresent(InsertOnce(s, after, e), id);
      InsertRunSeqOf(InsertOnce(s, after, e), Some(id), runes[1..], next, cores + {e}, events);
    }
  }

  lemma NoRun(s: seq<Elem>, after: Option<OpID>, runes: seq<Str>, id: OpID, cores: set<Elem>)
    requires runes == []
    ensures InsertRun(s, after, runes, id) == s && cores + SetOf(RunElems(after, runes, id)) == cores
  {
  }

  lemma InsertRunStep(s: seq<Elem>, after: Option<OpID>, runes: seq<Str>, id: OpID)
    requires runes != []
    ensures var e := RunElems(after, runes, id)[0];
            && e.id == id && e.after == FormatRef(after)
            && InsertRun(s, after, runes, id)
                 == InsertRun(InsertOnce(s, after, e), Some(id), runes[1..], OpID(id.counter + 1, id.actor))
  {
    hide InsertAfter, Contains;
  }

  lemma SuccessorLess(id: OpID)
    ensures id.Less(OpID(id.counter + 1, id.actor))
  {
  }

  lemma NextPresent(s: seq<Elem>, id: OpID)
    requires Contains(s, id)
    ensures RefPresent(s, Some(id), OpID(id.counter + 1, id.actor))
  {
    hide Contains;
  }

  lemma RunStep(after: Option<OpID>, runes: seq<Str>, id: OpID, cores: set<Elem>)
    requires runes != []
    ensures var all := RunElems(after, runes, id);
            var rest := RunElems(Some(id), runes[1..], OpID(id.counter + 1, id.actor));
            && all == [all[0]] + rest && all[0].Core() == all[0]
            && cores + SetOf(all) == cores + {all[0]} + SetOf(rest)
            && cores + {all[0]} <= cores + SetOf(all)
  {
  }

  lemma UniqueSubset(a: set<Elem>, b: set<Elem>)
    requires a <= b && CoreIdsUnique(b)
    ensures CoreIdsUnique(a)
  {
  }

  lemma KnownMore(cores: set<Elem>, more: set<Elem>, events: set<Event>)
    requires TargetsKnown(cores, events)
    ensures TargetsKnown(cores + more, events)
  {
    forall v | v in events ensures exists c :: c in cores + more && c.id == v.target {
      var c :| c in cores && c.id == v.target;
      assert c in cores + more;
    }
  }

  function DeleteEvents(ids: seq<OpID>, visId: OpID): set<Event> {
    set id | id in ids :: Event(id, true, visId)
  }

  lemma {:induction false} DeleteAllSeqOf(s: seq<Elem>, ids: seq<OpID>, visId: OpID, cores: set<Elem>, events: set<Event>)
    requires SeqOf(s, cores, events) && visId.actor != []
    requires forall id :: id in ids ==> Contains(s, id) && id.Less(visId)
    ensures DeleteAll(s, ids, visId).1
    ensures SeqOf(DeleteAll(s, ids, visId).0, cores, events + DeleteEvents(ids, visId))
    ensures forall id :: Contains(DeleteAll(s, ids, visId).0, id) == Contains(s, id)
    decreases |ids|
  {
    hide OpID.Less, SeqOf;
    if ids == [] {
      assert events + DeleteEvents(ids, visId) == events;
    } else {
      var t := SetVisibility(s, ids[0], true, visId);
      SetVisibilitySeqOf(s, ids[0], true, visId, cores, events);
      forall id ensures Contains(t, id) == Contains(s, id) { SameIdsContain(s, t, id); }
      DeleteAllSeqOf(t, ids[1..], visId, cores, events + {Event(ids[0], true, visId)});
      DeleteEventsStep(ids, visId, events);
    }
  }

  lemma DeleteEventsStep(ids: seq<OpID>, visId: OpID, events: set<Event>)
    requires ids != []
    ensures events + DeleteEvents(ids, visId)
         == events + {Event(ids[0], true, visId)} + DeleteEvents(ids[1..], visId)
  {
    assert ids == [ids[0]] + ids[1..];
  }

  lemma SameIdsContain(s: seq<Elem>, t: seq<Elem>, id: OpID)
    requires |s| == |t| && forall i :: 0 <= i < |s| ==> s[i].id == t[i].id
    ensures Contains(s, id) == Contains(t, id)
  {
    var i, j := IndexOf(s, id), IndexOf(t, id);
  }

  // ---- maps ----

  ghost predicate MapOf(entries: map<Str, Entry>, writes: set<Write>) {
    && (forall key :: key in entries ==> Write(key, entries[key]) in writes)
    && (forall w :: w in writes ==> w.key in entries && !entries[w.key].id.Less(w.entry.id))
  }

  ghost predicate WritesSound(writes: set<Write>) {
    && (forall w :: w in writes ==> w.entry.id.actor != [])
    && (forall v, w :: v in writes && w in writes && v.key == w.key && v.entry.id == w.entry.id ==> v == w)
  }

  /** A history of a map has one state. */
  lemma MapOfIsUnique(a: map<Str, Entry>, b: map<Str, Entry>, writes: set<Write>)
    requires MapOf(a, writes) && MapOf(b, writes) && WritesSound(writes)
    ensures a == b
  {
    hide OpID.Less;
    assert forall key :: key in a ==> Write(key, a[key]).key in b;
    assert forall key :: key in b ==> Write(key, b[key]).key in a;
    forall key | key in a ensures a[key] == b[key] {
      assert Write(key, a[key]) in writes && Write(key, b[key]) in writes;
      LessIsTotal(a[key].id, b[key].id);
    }
  }

  lemma WriteEntryMapOf(entries: map<Str, Entry>, key: Str, e: Entry, writes: set<Write>)
    requires MapOf(entries, writes) && WritesSound(writes) && e.id.actor != []
    ensures MapOf(WriteEntry(entries, key, e), writes + {Write(key, e)})
  {
    hide OpID.Less;
    LessIsTotal(e.id, e.id);
    var after := WriteEntry(entries, key, e);
    if key in entries {
      assert Write(key, entries[key]) in writes;
      LessIsTotal(entries[key].id, e.id);
    }
    forall w | w in writes ensures !after[w.key].id.Less(w.entry.id) {
      if w.key == key { LessIsStrictOrder(entries[key].id, e.id, w.entry.id); }
    }
  }
}
