/** The parsed roadmap (`roadmap.yaml`): epics, their tasks, and the ids both declare. */
module Roadmap {
  import opened Seqs

  datatype Task = Task(id: string, done: bool, dependsOn: seq<string>)

  datatype Epic = Epic(id: string, done: bool, keep: bool, tasks: seq<Task>, dependsOn: seq<string>)

  /** An epic or a task, seen only as a node of the dependency graph. */
  datatype Item = Item(id: string, dependsOn: seq<string>)

  function TaskItems(tasks: seq<Task>): seq<Item> {
    Map(tasks, (t: Task) => Item(t.id, t.dependsOn))
  }

  /** Every epic followed by its tasks, in file order. */
  function Items(epics: seq<Epic>): seq<Item> {
    if epics == [] then []
    else [Item(epics[0].id, epics[0].dependsOn)] + TaskItems(epics[0].tasks) + Items(epics[1..])
  }

  function Ids(items: seq<Item>): seq<string> {
    Map(items, (i: Item) => i.id)
  }

  /** `id_list`: every epic and task id, duplicates preserved. */
  function IdList(epics: seq<Epic>): seq<string> {
    Ids(Items(epics))
  }

  function EpicIds(epics: seq<Epic>): seq<string> {
    Map(epics, (e: Epic) => e.id)
  }

  /** `u` is a prerequisite of `v`: some item declared as `v` lists `u` under `depends_on`. */
  ghost predicate DependsOn(items: seq<Item>, u: string, v: string) {
    exists k :: 0 <= k < |items| && items[k].id == v && u in items[k].dependsOn
  }

  /** Some epic, or some task of one, declares that `v` depends on `u`. */
  ghost predicate Declares(epics: seq<Epic>, u: string, v: string) {
    || (exists e :: e in epics && e.id == v && u in e.dependsOn)
    || (exists e, t :: e in epics && t in e.tasks && t.id == v && u in t.dependsOn)
  }

  lemma ItemsOfCons(epics: seq<Epic>)
    requires epics != []
    ensures forall i :: i in Items(epics) <==>
              i == Item(epics[0].id, epics[0].dependsOn) || i in TaskItems(epics[0].tasks) || i in Items(epics[1..])
  {
  }

  lemma TaskItemsAre(tasks: seq<Task>, i: Item)
    ensures i in TaskItems(tasks) <==> exists t :: t in tasks && i == Item(t.id, t.dependsOn)
  {
    if i in TaskItems(tasks) {
      var k :| 0 <= k < |tasks| && TaskItems(tasks)[k] == i;
      assert tasks[k] in tasks;
    }
    if t :| t in tasks && i == Item(t.id, t.dependsOn) {
      var k :| 0 <= k < |tasks| && tasks[k] == t;
      assert TaskItems(tasks)[k] == i;
    }
  }

  /** The items are the epics and the tasks, with what each declares. */
  lemma {:induction false} ItemsAreDeclared(epics: seq<Epic>, i: Item)
    ensures i in Items(epics) <==>
              || (exists e :: e in epics && i == Item(e.id, e.dependsOn))
              || (exists e, t :: e in epics && t in e.tasks && i == Item(t.id, t.dependsOn))
  {
    if epics != [] {
      var head, rest := epics[0], epics[1..];
      ItemsAreDeclared(rest, i);
      ItemsOfCons(epics);
      TaskItemsAre(head.tasks, i);
      assert forall e :: e in epics <==> e == head || e in rest;
    }
  }

  lemma EdgesAreDeclared(epics: seq<Epic>, u: string, v: string)
    ensures DependsOn(Items(epics), u, v) <==> Declares(epics, u, v)
  {
    if DependsOn(Items(epics), u, v) {
      var k :| 0 <= k < |Items(epics)| && Items(epics)[k].id == v && u in Items(epics)[k].dependsOn;
      assert Items(epics)[k] in Items(epics);
      ItemsAreDeclared(epics, Items(epics)[k]);
    }
    if Declares(epics, u, v) {
      var i :| i in Items(epics) && i.id == v && u in i.dependsOn by {
        if e :| e in epics && e.id == v && u in e.dependsOn {
          ItemsAreDeclared(epics, Item(e.id, e.dependsOn));
          assert Item(e.id, e.dependsOn) in Items(epics);
        } else {
          var e, t :| e in epics && t in e.tasks && t.id == v && u in t.dependsOn;
          ItemsAreDeclared(epics, Item(t.id, t.dependsOn));
          assert Item(t.id, t.dependsOn) in Items(epics);
        }
      }
    }
  }

  /** The listed ids stand at the positions `at` of `ids`, in order, each for the second time. */
  ghost predicate SecondTimes(ids: seq<string>, dupes: seq<string>, at: seq<nat>) {
    && |at| == |dupes|
    && (forall j, m :: 0 <= j < m < |at| ==> at[j] < at[m])
    && (forall j :: 0 <= j < |at| ==>
          at[j] < |ids| && ids[at[j]] == dupes[j] && multiset(ids[..at[j]])[dupes[j]] == 1)
  }

  lemma SecondTimesSnoc(ids: seq<string>, dupes: seq<string>, at: seq<nat>, k: nat)
    requires SecondTimes(ids, dupes, at) && k < |ids| && forall j :: 0 <= j < |at| ==> at[j] < k
    requires multiset(ids[..k])[ids[k]] == 1
    ensures SecondTimes(ids, dupes + [ids[k]], at + [k])
    ensures forall j :: 0 <= j < |at + [k]| ==> (at + [k])[j] < k + 1
  {
  }

  /** `duplicate_ids`: each id declared more than once, reported once, in the order in which they are repeated. */
  method DuplicateIds(ids: seq<string>) returns (dupes: seq<string>)
    ensures exists at :: SecondTimes(ids, dupes, at)
    ensures NoDup(dupes)
    ensures forall x :: x in dupes <==> multiset(ids)[x] >= 2
    ensures dupes == [] <==> NoDup(ids)
  {
    var seen: set<string> := {};
    dupes := [];
    ghost var at: seq<nat> := [];
    for k := 0 to |ids|
      invariant SecondTimes(ids, dupes, at) && forall j :: 0 <= j < |at| ==> at[j] < k
      invariant NoDup(dupes)
      invariant seen == Elems(ids[..k])
      invariant forall x :: x in dupes <==> multiset(ids[..k])[x] >= 2
    {
      var i := ids[k];
      assert ids[..k + 1] == ids[..k] + [i];
      assert i in seen <==> multiset(ids[..k])[i] >= 1;
      if i in seen && i !in dupes {
        SecondTimesSnoc(ids, dupes, at, k);
        dupes, at := dupes + [i], at + [k];
      }
      seen := seen + {i};
    }
    assert ids[..|ids|] == ids;
    RepeatedIffNotDistinct(ids);
    if dupes != [] {
      assert dupes[0] in dupes;
    } else {
      assert forall x :: x !in dupes;
    }
  }

  lemma {:induction false} RepeatedIffNotDistinct(ids: seq<string>)
    ensures NoDup(ids) <==> forall x :: multiset(ids)[x] <= 1
  {
    if ids != [] {
      var rest := ids[1..];
      RepeatedIffNotDistinct(rest);
      assert ids == [ids[0]] + rest;
      assert multiset(ids) == multiset{ids[0]} + multiset(rest);
      if NoDup(ids) {
        assert ids[0] !in rest;
      } else if NoDup(rest) {
        var i, j :| 0 <= i < j < |ids| && ids[i] == ids[j];
        assert i == 0 && ids[j] == rest[j - 1];
        assert multiset(ids)[ids[0]] >= 2;
      } else {
        var x :| multiset(rest)[x] > 1;
        assert multiset(ids)[x] > 1;
      }
    }
  }
}
