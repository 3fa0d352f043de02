/** The bootstrap registration protocol of desktop/bootstrap_windows.go:
    completions arrive in any order, and the newest successful one stays live. */
module Bootstrap {
  import opened OpIds

  /** The fields of the application, and the scripts its web view runs. The ids in
      leaked are those whose removal failed. */
  datatype Boot = Boot(generation: nat, installed: nat, scriptID: Str, closed: bool, live: set<Str>, leaked: set<Str>)

  datatype Event =
    | Started
    | Completed(of: nat, id: Str, failed: bool, removed: bool)
    | Closed

  const FRESH := Boot(0, 0, [], false, {}, {})

  /** What the web view holds after it was asked to remove a script. */
  function Remove(b: Boot, id: Str, removed: bool): Boot {
    if removed then b.(live := b.live - {id}) else b.(leaked := b.leaked + {id})
  }

  /** The completion callback for the registration of one generation. A success
      with a non-empty id is live before the callback sees it. */
  function Complete(b0: Boot, of: nat, id: Str, failed: bool, removed: bool): Boot {
    var b := if failed || id == [] then b0 else b0.(live := b0.live + {id});
    if b.closed || failed || id == [] then b
    else if of < b.installed then Remove(b, id, removed)
    else
      var n := b.(scriptID := id, installed := of);
      if b.scriptID != [] then Remove(n, b.scriptID, removed) else n
  }

  function StepOf(b: Boot, e: Event): Boot {
    match e
    case Started => b.(generation := b.generation + 1)
    case Completed(of, id, failed, removed) => Complete(b, of, id, failed, removed)
    case Closed => b.(closed := true)
  }

  function After(events: seq<Event>): Boot {
    if events == [] then FRESH else StepOf(After(events[..|events| - 1]), events[|events| - 1])
  }

  /** The generations that completed successfully, with their ids. */
  function Successes(events: seq<Event>): map<nat, Str> {
    if events == [] then map[]
    else
      var before := Successes(events[..|events| - 1]);
      match events[|events| - 1]
      case Completed(of, id, false, _) => if id == [] then before else before[of := id]
      case _ => before
  }

  /** A registration completes once, after it started, and the web view never hands
      out an id twice. */
  ghost predicate Allowed(events: seq<Event>) {
    events == [] ||
    (var before := events[..|events| - 1];
     && Allowed(before)
     && match events[|events| - 1]
        case Completed(of, id, failed, _) =>
          && 0 < of <= After(before).generation && of !in Successes(before)
          && (!failed ==> forall g :: g in Successes(before) ==> Successes(before)[g] != id)
        case _ => true)
  }

  /** The script of the newest success is live, and nothing else that could be removed. */
  ghost predicate NewestLive(b: Boot, done: map<nat, Str>) {
    && (forall g :: g in done ==> 0 < g <= b.installed && done[g] != [])
    && (forall g, h :: g in done && h in done && g != h ==> done[g] != done[h])
    && (forall id :: id in b.leaked ==> id != b.scriptID && exists g :: g in done && done[g] == id)
    && if done == map[] then b.installed == 0 && b.scriptID == [] && b.live == b.leaked
       else b.installed in done && b.scriptID == done[b.installed] && b.live == b.leaked + {b.scriptID}
  }

  lemma CompleteKeeps(b: Boot, done: map<nat, Str>, of: nat, id: Str, removed: bool)
    requires NewestLive(b, done) && !b.closed
    requires of > 0 && of !in done && id != [] && forall g :: g in done ==> done[g] != id
    ensures NewestLive(Complete(b, of, id, false, removed), done[of := id])
  {
    var n, m := Complete(b, of, id, false, removed), done[of := id];
    assert id !in b.leaked && id != b.scriptID;
    if of < b.installed {
      assert m[b.installed] == b.scriptID;
    }
    forall x | x in n.leaked ensures x != n.scriptID && exists g :: g in m && m[g] == x {
      if x in b.leaked {
        var g :| g in done && done[g] == x;
        assert m[g] == x;
      } else if x == id {
        assert m[of] == id;
      } else {
        assert m[b.installed] == x;
      }
    }
  }

  /** For any number of registrations in flight that complete in any order, some of
      them failing: while the web view is open, exactly the script of the greatest
      successful generation is live, besides those whose removal failed. */
  lemma {:induction false} NewestWins(events: seq<Event>)
    requires Allowed(events)
    ensures After(events).closed || NewestLive(After(events), Successes(events))
  {
    if events != [] {
      var before, e := events[..|events| - 1], events[|events| - 1];
      NewestWins(before);
      if !After(before).closed && e.Completed? && !e.failed && e.id != [] {
        CompleteKeeps(After(before), Successes(before), e.of, e.id, e.removed);
      }
    }
  }

  /** When every removal succeeds, at most one script is live. */
  lemma OneLive(events: seq<Event>)
    requires Allowed(events) && forall i :: 0 <= i < |events| && events[i].Completed? ==> events[i].removed
    ensures After(events).closed || |After(events).live| <= 1
    ensures After(events).leaked == {}
  {
    NewestWins(events);
    NothingLeaked(events);
    hide Allowed, Successes, After;
    AtMostOne(After(events), Successes(events));
  }

  lemma {:induction false} NothingLeaked(events: seq<Event>)
    requires forall i :: 0 <= i < |events| && events[i].Completed? ==> events[i].removed
    ensures After(events).leaked == {}
  {
    if events != [] { NothingLeaked(events[..|events| - 1]); }
  }

  lemma AtMostOne(b: Boot, done: map<nat, Str>)
    requires b.leaked == {}
    ensures NewestLive(b, done) ==> |b.live| <= 1
  {
    assert NewestLive(b, done) ==> b.live <= {b.scriptID};
    assert |{b.scriptID}| == 1;
    if NewestLive(b, done) && b.live != {} { assert b.live == {b.scriptID}; }
  }

  class WindowsApp {
    var generation: nat
    var installed: nat
    var scriptID: Str
    var closed: bool
    var live: set<Str>
    var leaked: set<Str>

    constructor ()
      ensures State() == FRESH
    {
      generation, installed, scriptID, closed, live, leaked := 0, 0, [], false, {}, {};
    }

    ghost function State(): Boot
      reads this
    {
      Boot(generation, installed, scriptID, closed, live, leaked)
    }

    /** The web view takes a script away, or fails to. */
    method RemoveScript(id: Str, removed: bool) returns (ok: bool)
      modifies this`live, this`leaked
      ensures State() == Remove(old(State()), id, removed) && ok == removed
    {
      if removed {
        live := live - {id};
      } else {
        leaked := leaked + {id};
      }
      ok := removed;
    }

    /** installBootstrapOnUI up to the registration. */
    method InstallBootstrap() returns (of: nat)
      modifies this`generation
      ensures State() == StepOf(old(State()), Started) && of == generation
    {
      generation := generation + 1;
      of := generation;
    }

    /** The callback; ok says what ready is told. */
    method OnCompleted(of: nat, id: Str, failed: bool, removed: bool) returns (ok: bool)
      modifies this
      ensures State() == StepOf(old(State()), Completed(of, id, failed, removed))
      ensures !old(closed) ==>
                (ok <==> !failed && id != [] && ((of >= old(installed) && old(scriptID) == []) || removed))
    {
      if !failed && id != [] {
        live := live + {id};
      }
      var previous := scriptID;
      var stale := of < installed;
      if !closed && !failed && id != [] && !stale {
        scriptID := id;
        installed := of;
      }
      if closed {
        return true;
      }
      ok := !failed && id != [];
      if ok {
        if stale {
          ok := RemoveScript(id, removed);
        } else if previous != [] {
          ok := RemoveScript(previous, removed);
        }
      }
    }

    method Close()
      modifies this`closed
      ensures State() == StepOf(old(State()), Closed)
    {
      closed := true;
    }
  }
}
