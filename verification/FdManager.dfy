/** Who holds an open file: the reference count and descriptor of an entity, and the manager's map. */
module FdManagers {
  import opened Text
  import opened Requests

  class Entity {
    const path: string
    var fd: int        // -1 when closed
    var refcnt: nat

    predicate IsOpen()
      reads this
    {
      fd != -1
    }

    constructor (path: string)
      ensures this.path == path && fd == -1 && refcnt == 0
    {
      this.path := path;
      fd, refcnt := -1, 0;
    }

    method Dup()
      modifies this
      ensures fd == old(fd) && refcnt == if fd != -1 then old(refcnt) + 1 else old(refcnt)
    {
      if fd != -1 {
        refcnt := refcnt + 1;
      }
    }

    /** The reference counting of FdEntity::Open; works says whether the file operations succeed. */
    method Open(newFd: int, works: bool) returns (result: int)
      modifies this
      ensures result == (if works then 0 else -EIO)
      ensures !works ==> fd == old(fd) && refcnt == old(refcnt)
      ensures works && old(fd) != -1 ==> fd == old(fd) && refcnt == old(refcnt) + 1
      ensures works && old(fd) == -1 ==> fd == newFd && refcnt == 1
    {
      if fd != -1 {
        Dup();
        if !works {
          if 0 < refcnt {
            refcnt := refcnt - 1;
          }
          return -EIO;
        }
        return 0;
      }
      if !works {
        return -EIO;
      }
      fd, refcnt := newFd, 1;
      return 0;
    }

    /** Gives up one reference; aborted reports the "reference count underflow" abort. */
    method Close() returns (aborted: bool)
      modifies this
      ensures aborted <==> old(fd) != -1 && old(refcnt) == 0
      ensures refcnt == if old(fd) != -1 && 0 < old(refcnt) then old(refcnt) - 1 else old(refcnt)
      ensures fd == if old(fd) != -1 && refcnt == 0 then -1 else old(fd)
    {
      aborted := false;
      if fd != -1 {
        if 0 < refcnt {
          refcnt := refcnt - 1;
        } else {
          aborted := true;
        }
        if refcnt == 0 {
          fd := -1;
        }
      }
    }
  }

  ghost predicate OneKeyEach(m: map<string, Entity>) {
    forall k, l :: k in m && l in m && k != l ==> m[k] != m[l]
  }

  /** One key more; the others are as they were. */
  predicate Extends(m: map<string, Entity>, n: map<string, Entity>, key: string) {
    key !in m && key in n && n == m[key := n[key]]
  }

  lemma ExtendedValues(m: map<string, Entity>, n: map<string, Entity>, key: string)
    requires Extends(m, n, key)
    ensures n.Values == m.Values + {n[key]}
  {
    assert m[key := n[key]].Values <= m.Values + {n[key]};
    forall v | v in m.Values ensures v in n.Values {
      var k :| k in m && m[k] == v;
      assert n[k] == v;
    }
  }

  lemma NewKey(m: map<string, Entity>, key: string, e: Entity)
    requires OneKeyEach(m) && key !in m && e !in m.Values
    ensures m[key := e].Values == m.Values + {e} && OneKeyEach(m[key := e])
  {
    var n := m[key := e];
    assert n[key] == e;
    forall v | v in m.Values ensures v in n.Values {
      var k :| k in m && m[k] == v;
      assert n[k] == v;
    }
  }

  class FdManager {
    var fent: map<string, Entity>
    ghost var handles: multiset<Entity>  // what clients hold and have not closed
    const isCacheDir: bool

    /** An open entity counts exactly the handles that clients hold. */
    ghost predicate Counted(e: Entity)
      reads this, e
    {
      if e.IsOpen() then e.refcnt == handles[e] && 0 < e.refcnt else e.refcnt == 0
    }

    /** Every entity is mapped under one key and counted; an open entity that is held is in the map. */
    ghost predicate Valid()
      reads this, fent.Values, set e | e in handles
    {
      && OneKeyEach(fent)
      && (forall e :: e in fent.Values ==> Counted(e))
      && (forall e :: e in handles && e.IsOpen() ==> e in fent.Values)
    }

    /** Open finds an entity for the path. */
    ghost predicate Findable(path: string, forceTmpfile: bool)
      reads this, fent.Values
    {
      path in fent || (!forceTmpfile && !isCacheDir && exists e :: e in fent.Values && e.IsOpen() && e.path == path)
    }

    /** Every entity in the map is open. */
    ghost predicate AllOpen()
      reads this, fent.Values
    {
      forall e :: e in fent.Values ==> e.IsOpen()
    }

    constructor (isCacheDir: bool)
      ensures Valid() && fent == map[] && handles == multiset{} && this.isCacheDir == isCacheDir
    {
      fent, handles := map[], multiset{};
      this.isCacheDir := isCacheDir;
    }

    /** The key of a new entity. */
    function NewKeyFor(path: string, forceTmpfile: bool, tmpKey: string): string {
      if !forceTmpfile && isCacheDir then path else tmpKey
    }

    /** Exactly these entities of the map are closed. */
    ghost predicate ClosedAre(left: set<Entity>)
      reads this, fent.Values
    {
      left <= fent.Values && forall e :: e in fent.Values ==> (e in left <==> !e.IsOpen())
    }

    method Open(path: string, forceTmpfile: bool, isCreate: bool, cachePathWorks: bool, tmpKey: string,
                newFd: int, openWorks: bool)
      returns (ent: Entity?, ghost aborted: bool)
      requires Valid() && newFd != -1 && (isCreate ==> tmpKey !in fent)
      modifies this, fent.Values
      ensures Valid() && !aborted
      // what is handed out
      ensures ent == null ==> handles == old(handles)
      ensures ent != null ==> ent in fent.Values && openWorks && handles == old(handles) + multiset{ent}
      ensures ent != null && ent !in old(fent.Values) ==>
        fresh(ent) && ent.IsOpen() && ent.refcnt == 1 && ent.path == path
      ensures path != "" && path in old(fent) ==> ent == if openWorks then old(fent)[path] else null
      ensures ent != null <==>
        path != "" && openWorks && (old(Findable(path, forceTmpfile)) || (isCreate && (forceTmpfile || cachePathWorks)))
      // what becomes of the entities in the map
      ensures forall e :: e in old(fent.Values) ==> e.fd == old(e.fd) && (e != ent ==> e.refcnt == old(e.refcnt))
      ensures forall e :: e in fent.Values && e !in old(fent.Values) ==> fresh(e) && (e.IsOpen() <==> openWorks)
      ensures old(fent.Values) <= fent.Values
      ensures if path != "" && !old(Findable(path, forceTmpfile)) && isCreate && (forceTmpfile || cachePathWorks)
              then var key := NewKeyFor(path, forceTmpfile, tmpKey); Extends(old(fent), fent, key) && fresh(fent[key])
              else fent == old(fent)
      ensures openWorks && old(AllOpen()) ==> AllOpen()
    {
      aborted := false;
      if path == "" {
        return null, false;
      }
      var key := FindKey(path, forceTmpfile);
      if key.Some? {
        ent, aborted := OpenFound(key.value, newFd, openWorks);
      } else if isCreate {
        ent := Create(path, forceTmpfile, cachePathWorks, tmpKey, newFd, openWorks);
      } else {
        return null, false;
      }
    }

    /** Nothing is found for the path. */
    method Create(path: string, forceTmpfile: bool, cachePathWorks: bool, tmpKey: string, newFd: int, openWorks: bool)
      returns (ent: Entity?)
      requires Valid() && newFd != -1 && path !in fent && tmpKey !in fent
      modifies this
      ensures Valid() && old(fent.Values) <= fent.Values
      ensures ent != null <==> openWorks && (forceTmpfile || cachePathWorks)
      ensures ent == null ==> handles == old(handles)
      ensures ent != null ==> ent in fent.Values && fresh(ent) && ent.IsOpen() && ent.refcnt == 1 && ent.path == path
      ensures ent != null ==> handles == old(handles) + multiset{ent}
      ensures forall e :: e in fent.Values && e !in old(fent.Values) ==> fresh(e) && (e.IsOpen() <==> openWorks)
      ensures if forceTmpfile || cachePathWorks
              then var key := NewKeyFor(path, forceTmpfile, tmpKey); Extends(old(fent), fent, key) && fresh(fent[key])
              else fent == old(fent)
    {
      if !forceTmpfile && !cachePathWorks {
        return null;
      }
      ent := OpenNew(path, NewKeyFor(path, forceTmpfile, tmpKey), newFd, openWorks);
    }

    /** Search by path, and without a cache directory among the open entities too. */
    method FindKey(path: string, forceTmpfile: bool) returns (key: Option<string>)
      ensures path in fent ==> key == Some(path)
      ensures key.Some? <==> Findable(path, forceTmpfile)
      ensures key.Some? && path !in fent ==>
        key.value in fent && fent[key.value].IsOpen() && fent[key.value].path == path && !forceTmpfile && !isCacheDir
      ensures key.None? && !forceTmpfile && !isCacheDir ==>
        forall e :: e in fent.Values && e.IsOpen() ==> e.path != path
    {
      if path in fent {
        return Some(path);
      }
      if !forceTmpfile && !isCacheDir {
        if k :| k in fent && fent[k].IsOpen() && fent[k].path == path {
          return Some(k);
        }
      }
      return None;
    }

    /** The entity is in the map: take a reference, open it once more, give the first one back. */
    method OpenFound(key: string, newFd: int, openWorks: bool) returns (ent: Entity?, ghost aborted: bool)
      requires Valid() && key in fent && newFd != -1
      modifies `handles, fent[key]
      ensures Valid() && !aborted
      ensures ent == if openWorks then fent[key] else null
      ensures handles == if openWorks then old(handles) + multiset{fent[key]} else old(handles)
      ensures fent[key].fd == old(fent[key].fd)
      ensures !openWorks ==> fent[key].refcnt == old(fent[key].refcnt)
    {
      ent := fent[key];
      assert ent in fent.Values;
      ent.Dup();
      var r := ent.Open(newFd, openWorks);
      aborted := ent.Close();
      if r != 0 {
        ent := null;
      } else {
        handles := handles + multiset{ent};
      }
    }

    /** A new entity under a key that is not in use. */
    method OpenNew(path: string, key: string, newFd: int, openWorks: bool) returns (ent: Entity?)
      requires Valid() && newFd != -1 && key !in fent
      modifies this
      ensures Valid() && old(fent.Values) <= fent.Values
      ensures forall e :: e in fent.Values && e !in old(fent.Values) ==> fresh(e) && (e.IsOpen() <==> openWorks)
      ensures ent == null <==> !openWorks
      ensures Extends(old(fent), fent, key) && fresh(fent[key]) && (fent[key].IsOpen() <==> openWorks)
      ensures ent == null ==> handles == old(handles)
      ensures ent != null ==> ent in fent.Values && fresh(ent) && ent.IsOpen() && ent.refcnt == 1 && ent.path == path
      ensures ent != null ==> handles == old(handles) + multiset{ent}
    {
      var e := new Entity(path);
      ghost var before := fent;
      fent := fent[key := e];
      NewKey(before, key, e);
      var r := e.Open(newFd, openWorks);
      if r != 0 {
        return null;
      }
      handles := handles + multiset{e};
      return e;
    }

    /** Take a reference on an entity of the map for a client. */
    method Hold(key: string) returns (ent: Entity)
      requires Valid() && key in fent
      modifies `handles, fent[key]
      ensures Valid() && ent == fent[key] && handles == old(handles) + multiset{ent}
      ensures ent.fd == old(ent.fd)
    {
      ent := fent[key];
      ent.Dup();
      handles := handles + multiset{ent};
    }

    method GetFdEntity(path: string, existfd: int) returns (ent: Entity?)
      requires Valid()
      modifies `handles, fent.Values
      ensures Valid() && (old(AllOpen()) ==> AllOpen())
      ensures forall e :: e in fent.Values ==> e.fd == old(e.fd)
      ensures handles == if ent == null then old(handles) else old(handles) + multiset{ent}
      ensures ent == null && path != "" && path in fent ==> existfd != -1 && fent[path].fd != existfd
      ensures ent == null && path != "" && existfd != -1 ==>
        forall e :: e in fent.Values && e.fd == existfd ==>
          exists x :: x in fent.Values && x.fd == existfd && x.path != path
      ensures ent != null ==>
        && ent in fent.Values && (existfd == -1 || ent.fd == existfd)
        && (ent.path == path || (path in fent && fent[path] == ent))
    {
      if path == "" {
        return null;
      }
      if path in fent && (existfd == -1 || fent[path].fd == existfd) {
        ent := Hold(path);
        return;
      }
      if existfd != -1 {
        if k :| k in fent && fent[k].fd == existfd {
          if fent[k].path == path {
            ent := Hold(k);
            return;
          }
        }
      }
      return null;
    }

    method ExistOpen(path: string, existfd: int, ignoreExistfd: bool, newFd: int, openWorks: bool)
      returns (ent: Entity?, ghost aborted: bool)
      requires Valid() && newFd != -1
      modifies this, fent.Values
      ensures Valid() && !aborted && (openWorks && old(AllOpen()) ==> AllOpen())
      ensures fent == old(fent) && forall e :: e in fent.Values ==> e.fd == old(e.fd)
      ensures path != "" && openWorks && old(Findable(path, false)) ==> ent != null
      ensures ent == null ==> handles == old(handles)
      ensures ent != null ==> ent in fent.Values && handles == old(handles) + multiset{ent}
    {
      ent, aborted := Open(path, false, false, true, "", newFd, openWorks);
      if ent == null && (ignoreExistfd || existfd != -1) {
        if k :| k in fent && fent[k].IsOpen() && (ignoreExistfd || fent[k].fd == existfd) {
          if fent[k].path == path {
            ent := Hold(k);
          }
        }
      }
    }

    /** A client gives back a handle.  The last one closes the entity and takes it out of the map. */
    method Close(ent: Entity) returns (found: bool, ghost aborted: bool)
      requires Valid() && ent in handles
      modifies this, fent.Values
      ensures forall e :: e in old(fent.Values) && e != ent ==> e.refcnt == old(e.refcnt) && e.fd == old(e.fd)
      ensures Valid() && !aborted && (old(AllOpen()) ==> AllOpen())
      ensures fent.Values <= old(fent.Values) <= fent.Values + {ent}
      ensures handles == old(handles) - multiset{ent}
      ensures old(ent.IsOpen()) ==> found && (ent.IsOpen() <==> 1 < old(handles)[ent])
      ensures found ==> (ent in fent.Values <==> ent.IsOpen())
      ensures found <==> ent in old(fent.Values)
      ensures !found ==> fent == old(fent)
    {
      aborted, found := false, ent in fent.Values;
      if found {
        aborted := Release(ent);
        if !ent.IsOpen() {
          Erase(ent);
        }
      } else {
        handles := handles - multiset{ent};
      }
    }

    /** A handle on a mapped entity is given back. */
    method Release(ent: Entity) returns (aborted: bool)
      requires Valid() && ent in handles && ent in fent.Values
      modifies `handles, ent
      ensures Valid() && !aborted
      ensures handles == old(handles) - multiset{ent}
      ensures ent.IsOpen() <==> old(ent.IsOpen()) && 1 < old(handles)[ent]
    {
      handles := handles - multiset{ent};
      aborted := ent.Close();
    }

    /** Take an entity out of the map, under whatever key it is there. */
    method Erase(ent: Entity)
      requires Valid() && !ent.IsOpen()
      modifies `fent
      ensures Valid()
      ensures fent.Values == old(fent.Values) - {ent}
    {
      ghost var before := fent;
      fent := map k | k in fent && fent[k] != ent :: fent[k];
      assert forall e :: e in fent.Values ==> e in before.Values && e != ent;
      forall e | e in before.Values && e != ent ensures e in fent.Values {
        var k :| k in before && before[k] == e;
        assert k in fent && fent[k] == e;
      }
    }
  }

  // ---------------------------------------------------------------------
  // Whole runs
  // ---------------------------------------------------------------------

  /** An entity whose first open fails stays in the map, and the next open hands it out closed. */
  method ClosedEntityHandedOut() returns (m: FdManager, first: Entity?, second: Entity?)
    ensures first == null && second != null && !second.IsOpen()
  {
    m := new FdManager(true);
    ghost var aborted;
    first, aborted := m.Open("/object", false, true, true, "/temporary", 3, false);
    assert "/object" in m.fent && m.fent["/object"] in m.fent.Values;
    second, aborted := m.Open("/object", false, true, true, "/temporary", 3, true);
  }

  datatype Call =
    | OpenCall(path: string, forceTmpfile: bool, isCreate: bool, cachePathWorks: bool, tmpKey: string, newFd: int,
               openWorks: bool)
    | GetCall(path: string, existfd: int)
    | ExistCall(path: string, existfd: int, ignoreExistfd: bool, newFd: int, openWorks: bool)
    | CloseCall(i: nat)  // give back the i-th of the handles held

  predicate RealFd(call: Call) {
    (call.OpenCall? || call.ExistCall?) ==> call.newFd != -1
  }

  predicate OpenWorks(call: Call) {
    (call.OpenCall? || call.ExistCall?) ==> call.openWorks
  }

  predicate KeyTaken(call: Call, m: map<string, Entity>) {
    call.OpenCall? && call.isCreate && call.tmpKey in m
  }

  /** What a call does to the closed entities in the map. */
  datatype Event = LeftClosed(e: Entity) | GivenBack(e: Entity) | Neither

  function AfterEvent(left: set<Entity>, event: Event): set<Entity> {
    match event
    case LeftClosed(e) => left + {e}
    case GivenBack(e) => left - {e}
    case Neither => left
  }

  /** The entities left closed by a first open that failed, and given back by nobody since. */
  function LeftOver(events: seq<Event>): set<Entity> {
    if events == [] then {} else AfterEvent(LeftOver(events[..|events| - 1]), events[|events| - 1])
  }

  lemma OneMoreEvent(events: seq<Event>, event: Event)
    ensures LeftOver(events + [event]) == AfterEvent(LeftOver(events), event)
  {
    assert (events + [event])[..|events|] == events;
  }

  /** Only a creation whose open fails leaves a closed entity; a call to close gives back a handle. */
  predicate EventFits(call: Call, event: Event) {
    && (event.LeftClosed? ==> call.OpenCall? && call.isCreate && !call.openWorks)
    && (event.GivenBack? ==> call.CloseCall?)
  }

  /** One call by the clients, who together hold the handles in held. */
  method Step(m: FdManager, call: Call, held: seq<Entity>, ghost left: set<Entity>)
    returns (held': seq<Entity>, ghost aborted: bool, ghost event: Event)
    requires m.Valid() && m.handles == multiset(held) && m.ClosedAre(left) && RealFd(call) && !KeyTaken(call, m.fent)
    modifies m, m.fent.Values
    ensures m.Valid() && m.handles == multiset(held') && !aborted
    ensures m.ClosedAre(AfterEvent(left, event)) && EventFits(call, event)
    ensures OpenWorks(call) && old(m.AllOpen()) ==> m.AllOpen()
    ensures forall e :: e in m.fent.Values ==> e in old(m.fent.Values) || fresh(e)
  {
    if call.CloseCall? {
      held', aborted, event := held, false, Neither;
      if call.i < |held| {
        event := GivenBack(held[call.i]);
        held', aborted := GiveBack(m, call.i, held, left);
      }
      return;
    }
    var ent;
    ent, aborted, event := Take(m, call, left);
    held' := if ent == null then held else held + [ent];
  }

  lemma OneTaken(held: seq<Entity>, i: nat)
    requires i < |held|
    ensures multiset(held[..i] + held[i + 1..]) == multiset(held) - multiset{held[i]}
  {
    assert held == held[..i] + [held[i]] + held[i + 1..];
  }

  method GiveBack(m: FdManager, i: nat, held: seq<Entity>, ghost left: set<Entity>)
    returns (held': seq<Entity>, ghost aborted: bool)
    requires m.Valid() && i < |held| && m.handles == multiset(held) && m.ClosedAre(left)
    modifies m, m.fent.Values
    ensures m.Valid() && m.handles == multiset(held') && !aborted && (old(m.AllOpen()) ==> m.AllOpen())
    ensures m.ClosedAre(left - {held[i]})
    ensures m.fent.Values <= old(m.fent.Values)
  {
    OneTaken(held, i);
    held' := held[..i] + held[i + 1..];
    var found;
    found, aborted := m.Close(held[i]);
  }

  /** The calls that may hand out a handle. */
  method Take(m: FdManager, call: Call, ghost left: set<Entity>)
    returns (ent: Entity?, ghost aborted: bool, ghost event: Event)
    requires m.Valid() && !call.CloseCall? && m.ClosedAre(left) && RealFd(call) && !KeyTaken(call, m.fent)
    modifies m, m.fent.Values
    ensures m.Valid() && !aborted
    ensures m.handles == if ent == null then old(m.handles) else old(m.handles) + multiset{ent}
    ensures m.ClosedAre(AfterEvent(left, event)) && EventFits(call, event)
    ensures OpenWorks(call) && old(m.AllOpen()) ==> m.AllOpen()
    ensures forall e :: e in m.fent.Values ==> e in old(m.fent.Values) || fresh(e)
  {
    aborted, event := false, Neither;
    match call {
      case OpenCall(path, forceTmpfile, isCreate, cachePathWorks, tmpKey, newFd, openWorks) =>
        ent, aborted, event := TakeOpen(m, call, left);
      case GetCall(path, existfd) =>
        ent := m.GetFdEntity(path, existfd);
      case ExistCall(path, existfd, ignoreExistfd, newFd, openWorks) =>
        ent, aborted := m.ExistOpen(path, existfd, ignoreExistfd, newFd, openWorks);
    }
  }

  method TakeOpen(m: FdManager, call: Call, ghost left: set<Entity>)
    returns (ent: Entity?, ghost aborted: bool, ghost event: Event)
    requires m.Valid() && call.OpenCall? && m.ClosedAre(left) && RealFd(call) && !KeyTaken(call, m.fent)
    modifies m, m.fent.Values
    ensures m.Valid() && !aborted
    ensures m.handles == if ent == null then old(m.handles) else old(m.handles) + multiset{ent}
    ensures m.ClosedAre(AfterEvent(left, event)) && EventFits(call, event)
    ensures call.openWorks && old(m.AllOpen()) ==> m.AllOpen()
    ensures forall e :: e in m.fent.Values ==> e in old(m.fent.Values) || fresh(e)
  {
    ghost var before := m.fent;
    ent, aborted := m.Open(call.path, call.forceTmpfile, call.isCreate, call.cachePathWorks, call.tmpKey, call.newFd,
                           call.openWorks);
    event := Neither;
    if m.fent != before && !call.openWorks {
      var key := m.NewKeyFor(call.path, call.forceTmpfile, call.tmpKey);
      ExtendedValues(before, m.fent, key);
      event := LeftClosed(m.fent[key]);
    }
  }

  /** Any run from an empty manager, up to the first call that draws a temporary name already in use:
      the abort for too many closes is not reached, every open entity counts the handles that are
      still held, and every mapped entity is open if and only if each one left closed by a failed
      creation has been given back since. */
  method Run(isCacheDir: bool, calls: seq<Call>)
    returns (m: FdManager, held: seq<Entity>, done: nat, ghost aborted: bool, ghost events: seq<Event>)
    requires forall call :: call in calls ==> RealFd(call)
    ensures done <= |calls| && (done < |calls| ==> KeyTaken(calls[done], m.fent))
    ensures m.Valid() && m.handles == multiset(held) && !aborted
    ensures |events| == done && forall k :: 0 <= k < done ==> EventFits(calls[k], events[k])
    ensures m.AllOpen() <==> LeftOver(events) == {}
    ensures (forall call :: call in calls ==> OpenWorks(call)) ==> m.AllOpen()
  {
    m := new FdManager(isCacheDir);
    held, done, aborted, events := [], 0, false, [];
    while done < |calls|
      invariant done <= |calls| && fresh(m) && !aborted
      invariant forall e :: e in m.fent.Values ==> fresh(e)
      invariant m.Valid() && m.handles == multiset(held)
      invariant |events| == done && forall k :: 0 <= k < done ==> EventFits(calls[k], events[k])
      invariant m.ClosedAre(LeftOver(events))
      invariant (forall call :: call in calls ==> OpenWorks(call)) ==> m.AllOpen()
    {
      if KeyTaken(calls[done], m.fent) {
        break;
      }
      ghost var event;
      held, aborted, event := Step(m, calls[done], held, LeftOver(events));
      OneMoreEvent(events, event);
      events := events + [event];
      done := done + 1;
    }
  }
}
