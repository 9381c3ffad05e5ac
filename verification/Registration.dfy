/**
 * Registering apps with one Prowlarr. `Register` and `Unregister` look the application up by
 * name in one request and write in another, so several controllers can interleave between
 * the two halves. This file has the methods and what one write does; RegistrationRuns has
 * the interleavings.
 */
module Registration {
  import opened Common

  datatype App<D> = App(name: string, details: D)
  type Apps<D> = map<int, App<D>>

  // ----- The two halves -----

  ghost predicate Named<D>(apps: Apps<D>, id: int, name: string) {
    id in apps && apps[id].name == name
  }

  ghost predicate Found<D>(apps: Apps<D>, name: string, id: int) {
    if id == 0 then forall i :: !Named(apps, i, name) else Named(apps, id, name)
  }

  /** A task is what an actor wants of the application with its name: present with these details, or absent. */
  datatype Task<D> = Present(details: D) | Absent

  /** The write half: PUT to a found ID, POST otherwise; DELETE a found ID, nothing otherwise. */
  ghost predicate Written<D>(apps: Apps<D>, apps': Apps<D>, name: string, task: Task<D>, id: int, newId: int,
                             ok: bool) {
    if !ok then apps' == apps
    else match task
      case Present(d) =>
        if id != 0 then id in apps && apps' == apps[id := App(name, d)]
        else newId > 0 && newId !in apps && apps' == apps[newId := App(name, d)]
      case Absent => if id != 0 then id in apps && apps' == apps - {id} else apps' == apps
  }

  ghost predicate UniqueNames<D>(apps: Apps<D>) {
    forall i, j, n :: Named(apps, i, n) && Named(apps, j, n) ==> i == j
  }

  /** What a completed task leaves behind. */
  ghost predicate Achieved<D>(apps: Apps<D>, name: string, task: Task<D>) {
    match task
    case Present(d) => exists id :: Named(apps, id, name) && apps[id] == App(name, d)
    case Absent => forall id :: !Named(apps, id, name)
  }

  lemma WriteEffect<D>(apps: Apps<D>, apps': Apps<D>, name: string, task: Task<D>, id: int, newId: int, ok: bool)
    requires UniqueNames(apps) && Found(apps, name, id) && Written(apps, apps', name, task, id, newId, ok)
    ensures UniqueNames(apps')
    ensures ok ==> Achieved(apps', name, task)
    ensures forall i, n :: n != name ==>
              (Named(apps', i, n) <==> Named(apps, i, n)) && (Named(apps, i, n) ==> apps'[i] == apps[i])
  {
    forall i, n | n != name
      ensures Named(apps', i, n) <==> Named(apps, i, n)
      ensures Named(apps, i, n) ==> apps'[i] == apps[i]
    {
      assert id != 0 ==> Named(apps, id, name);
    }
    if ok && task.Present? {
      assert Named(apps', if id != 0 then id else newId, name);
    }
    if ok && task.Absent? {
      forall j ensures !Named(apps', j, name) {
        assert id != 0 ==> Named(apps, id, name);
        assert Named(apps', j, name) ==> Named(apps, j, name);
      }
    }
    forall i, j, n | Named(apps', i, n) && Named(apps', j, n) ensures i == j {
      if n != name {
        assert Named(apps, i, n) && Named(apps, j, n);
      } else {
        assert id == 0 ==> !Named(apps, i, name) && !Named(apps, j, name);
        assert id != 0 ==> Named(apps, id, name);
        assert id != 0 ==> (i != id ==> Named(apps, i, name)) && (j != id ==> Named(apps, j, name));
      }
    }
  }

  /** Registering twice in a row is registering once. */
  lemma TwiceIsOnce<D>(apps0: Apps<D>, apps1: Apps<D>, apps2: Apps<D>, name: string, task: Task<D>, id0: int, new0: int,
                       id1: int, new1: int)
    requires UniqueNames(apps0)
    requires Found(apps0, name, id0) && Written(apps0, apps1, name, task, id0, new0, true)
    requires Found(apps1, name, id1) && Written(apps1, apps2, name, task, id1, new1, true)
    ensures apps2 == apps1
  {
    WriteEffect(apps0, apps1, name, task, id0, new0, true);
    if task.Present? {
      var id :| Named(apps1, id, name) && apps1[id] == App(name, task.details);
      assert id1 == id;
    }
  }

  class Service<D> {
    var apps: Apps<D>

    constructor () ensures apps == map[] { apps := map[]; }

    ghost predicate Valid()
      reads this
    {
      forall id :: id in apps ==> id > 0
    }

    /** GET of all applications, in some order. */
    method List(ok: bool) returns (found: Option<seq<(int, App<D>)>>)
      ensures found.Some? <==> ok
      ensures found.Some? ==> forall i :: 0 <= i < |found.value| ==>
                found.value[i].0 in apps && apps[found.value[i].0] == found.value[i].1
      ensures found.Some? ==> forall id :: id in apps ==> (id, apps[id]) in found.value
    {
      if !ok { return None; }
      var listed: seq<(int, App<D>)> := [];
      var todo := apps.Keys;
      while todo != {}
        invariant todo <= apps.Keys
        invariant forall i :: 0 <= i < |listed| ==> listed[i].0 in apps && apps[listed[i].0] == listed[i].1
        invariant forall id :: id in apps && id !in todo ==> (id, apps[id]) in listed
      {
        var id := Pick(todo);
        listed := listed + [(id, apps[id])];
        todo := todo - {id};
      }
      found := Some(listed);
    }

    method FindApplicationByName(name: string, listed: bool) returns (ok: bool, id: int)
      requires Valid()
      ensures ok <==> listed
      ensures ok ==> Found(apps, name, id)
    {
      var found := List(listed);
      if found.None? { return false, 0; }
      var list := found.value;
      for i := 0 to |list|
        invariant forall j :: 0 <= j < i ==> list[j].1.name != name
      {
        if list[i].1.name == name { return true, list[i].0; }
      }
      forall i ensures !Named(apps, i, name) {
        if i in apps { assert (i, apps[i]) in list; }
      }
      return true, 0;
    }

    method UnusedId() returns (id: int)
      ensures id > 0 && id !in apps
    {
      id := 1;
      var todo := apps.Keys;
      while todo != {}
        invariant todo <= apps.Keys && id > 0 && forall i :: i in apps && i !in todo ==> i < id
      {
        var i := Pick(todo);
        if i >= id { id := i + 1; }
        todo := todo - {i};
      }
    }

    /** How Prowlarr answers is an input: whether it lists its applications, and whether it accepts the write. */
    method Register(name: string, details: D, listed: bool, accepted: bool) returns (ok: bool)
      requires Valid() && UniqueNames(apps)
      modifies this
      ensures Valid() && UniqueNames(apps)
      ensures ok <==> listed && accepted
      ensures !ok ==> apps == old(apps)
      ensures ok ==> Achieved(apps, name, Present(details))
      ensures forall i, n :: n != name ==>
                (Named(apps, i, n) <==> Named(old(apps), i, n)) && (Named(old(apps), i, n) ==> apps[i] == old(apps)[i])
    {
      var looked, id := FindApplicationByName(name, listed);
      if !looked { return false; }
      var newId := UnusedId();
      if accepted {
        apps := apps[if id > 0 then id else newId := App(name, details)];
      }
      ok := accepted;
      WriteEffect(old(apps), apps, name, Present(details), id, newId, ok);
    }

    /** Without an application of the name there is nothing to delete, and that is a success. */
    method Unregister(name: string, listed: bool, accepted: bool) returns (ok: bool)
      requires Valid() && UniqueNames(apps)
      modifies this
      ensures Valid() && UniqueNames(apps)
      ensures ok <==> listed && (accepted || forall i :: !Named(old(apps), i, name))
      ensures !ok ==> apps == old(apps)
      ensures ok ==> Achieved(apps, name, Absent)
      ensures forall i, n :: n != name ==>
                (Named(apps, i, n) <==> Named(old(apps), i, n)) && (Named(old(apps), i, n) ==> apps[i] == old(apps)[i])
    {
      var looked, id := FindApplicationByName(name, listed);
      if !looked { return false; }
      if id == 0 { return true; }
      ok := accepted;
      if ok { apps := apps - {id}; }
      WriteEffect(old(apps), apps, name, Absent, id, 0, ok);
    }
  }
}
