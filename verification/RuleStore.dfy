/** The management plane's rule list: an array of slots that stands for a finite set of rules. */
module RuleStore {
  import opened Wrappers

  const RULE_ENTRY_MAX := 100000

  datatype Status = Ok | Full | Exist | NotExist

  /** A slot keeps its last tuple when it is freed. */
  datatype Entry<T> = Entry(used: bool, tuple: T)

  /** The rules in the used slots. */
  ghost function Rules<T>(es: seq<Entry<T>>): set<T> {
    set i | 0 <= i < |es| && es[i].used :: es[i].tuple
  }

  ghost predicate Distinct<T>(es: seq<Entry<T>>) {
    forall i, j :: 0 <= i < j < |es| && es[i].used && es[j].used ==> es[i].tuple != es[j].tuple
  }

  ghost function CountFree<T>(es: seq<Entry<T>>): (n: nat)
    ensures n <= |es|
  {
    if es == [] then 0 else CountFree(es[..|es| - 1]) + if es[|es| - 1].used then 0 else 1
  }

  /** With no rule stored twice, used slots and rules are equally many. */
  lemma {:induction false} FreeSlotsCountRules<T>(es: seq<Entry<T>>)
    requires Distinct(es)
    ensures |Rules(es)| + CountFree(es) == |es|
  {
    if es != [] {
      var n := |es| - 1;
      FreeSlotsCountRules(es[..n]);
      assert Rules(es) == Rules(es[..n]) + if es[n].used then {es[n].tuple} else {};
      assert es[n].used ==> es[n].tuple !in Rules(es[..n]);
    }
  }

  lemma {:induction false} AllUsedMeansNoFree<T>(es: seq<Entry<T>>)
    requires forall i :: 0 <= i < |es| ==> es[i].used
    ensures CountFree(es) == 0
  {
    if es != [] {
      AllUsedMeansNoFree(es[..|es| - 1]);
    }
  }

  lemma {:induction false} NoneUsed<T>(es: seq<Entry<T>>)
    requires forall i :: 0 <= i < |es| ==> !es[i].used
    ensures CountFree(es) == |es|
  {
    if es != [] {
      NoneUsed(es[..|es| - 1]);
    }
  }

  lemma {:induction false} CountAfterUpdate<T>(es: seq<Entry<T>>, i: nat, e: Entry<T>)
    requires i < |es|
    ensures CountFree(es[i := e]) == CountFree(es) + (if es[i].used then 1 else 0) - (if e.used then 1 else 0)
  {
    var n := |es| - 1;
    if i == n {
      assert es[i := e][..n] == es[..n];
    } else {
      CountAfterUpdate(es[..n], i, e);
      assert es[i := e][..n] == es[..n][i := e];
    }
  }

  /** Filling a free slot with a new rule adds it to the set; freeing a used slot takes its rule out. */
  lemma FillSlot<T>(es: seq<Entry<T>>, i: nat, t: T)
    requires i < |es| && !es[i].used && Distinct(es) && t !in Rules(es)
    ensures var fs := es[i := Entry(true, t)]; Distinct(fs) && Rules(fs) == Rules(es) + {t} && CountFree(fs) == CountFree(es) - 1
  {
    var fs := es[i := Entry(true, t)];
    CountAfterUpdate(es, i, Entry(true, t));
    assert fs[i].tuple == t;
    forall x | x in Rules(es) ensures x in Rules(fs) {
      var j :| 0 <= j < |es| && es[j].used && es[j].tuple == x;
      assert fs[j].used && fs[j].tuple == x;
    }
    forall j | 0 <= j < |es| && es[j].used ensures es[j].tuple != t {
      assert es[j].tuple in Rules(es);
    }
  }

  lemma FreeSlot<T>(es: seq<Entry<T>>, i: nat)
    requires i < |es| && es[i].used && Distinct(es)
    ensures var fs := es[i := es[i].(used := false)];
      Distinct(fs) && Rules(fs) == Rules(es) - {es[i].tuple} && CountFree(fs) == CountFree(es) + 1
  {
    var fs := es[i := es[i].(used := false)];
    CountAfterUpdate(es, i, es[i].(used := false));
    forall x | x in Rules(es) && x != es[i].tuple ensures x in Rules(fs) {
      var j :| 0 <= j < |es| && es[j].used && es[j].tuple == x;
      assert fs[j].used && fs[j].tuple == x;
    }
  }

  class RuleList<T(==)> {
    const entries: array<Entry<T>>
    var entryFree: nat
    var uncommitted: bool

    ghost predicate Valid()
      reads this, entries
    {
      entries.Length == RULE_ENTRY_MAX && Distinct(entries[..]) && entryFree == CountFree(entries[..])
    }

    ghost function Stored(): set<T>
      reads entries
    {
      Rules(entries[..])
    }

    constructor (blank: T)
      ensures Valid() && fresh(entries) && Stored() == {} && entryFree == RULE_ENTRY_MAX
    {
      entries := new Entry<T>[RULE_ENTRY_MAX](i => Entry(false, blank));
      entryFree := RULE_ENTRY_MAX;
      uncommitted := false;
      new;
      NoneUsed(entries[..]);
    }

    /** find_first_free */
    method FindFirstFree() returns (index: int)
      ensures -1 <= index < entries.Length
      ensures index >= 0 ==> !entries[index].used && forall i :: 0 <= i < index ==> entries[i].used
      ensures index == -1 ==> forall i :: 0 <= i < entries.Length ==> entries[i].used
    {
      index := 0;
      while index < entries.Length
        invariant 0 <= index <= entries.Length && forall i :: 0 <= i < index ==> entries[i].used
      {
        if !entries[index].used {
          return;
        }
        index := index + 1;
      }
      return -1;
    }

    /** The used slot holding a rule, or -1: the scan of Rule_duplicate_check and Rule_del. */
    method Find(rule: T) returns (index: int)
      ensures -1 <= index < entries.Length
      ensures index >= 0 ==> entries[index].used && entries[index].tuple == rule
      ensures index >= 0 <==> rule in Stored()
    {
      index := 0;
      while index < entries.Length
        invariant 0 <= index <= entries.Length
        invariant forall i :: 0 <= i < index && entries[i].used ==> entries[i].tuple != rule
      {
        if entries[index].used && entries[index].tuple == rule {
          assert entries[..][index].tuple in Stored();
          return;
        }
        index := index + 1;
      }
      return -1;
    }

    /** Rule_add: full is reported before a duplicate is. */
    method Add(rule: T) returns (status: Status)
      requires Valid()
      modifies this, entries
      ensures Valid()
      ensures status == if |old(Stored())| == RULE_ENTRY_MAX then Full else if rule in old(Stored()) then Exist else Ok
      ensures Stored() == if status.Ok? then old(Stored()) + {rule} else old(Stored())
      ensures uncommitted == (status.Ok? || old(uncommitted))
    {
      FreeSlotsCountRules(entries[..]);
      if entryFree == 0 {
        return Full;
      }
      var at := Find(rule);
      if at >= 0 {
        return Exist;
      }
      var index := FindFirstFree();
      if index == -1 {
        AllUsedMeansNoFree(entries[..]);
        assert false;
      }
      FillSlot(entries[..], index, rule);
      entries[index] := Entry(true, rule);
      entryFree := entryFree - 1;
      uncommitted := true;
      return Ok;
    }

    /** Rule_del */
    method Del(rule: T) returns (status: Status)
      requires Valid()
      modifies this, entries
      ensures Valid()
      ensures status == if rule in old(Stored()) then Ok else NotExist
      ensures Stored() == old(Stored()) - {rule}
      ensures uncommitted == (status.Ok? || old(uncommitted))
    {
      FreeSlotsCountRules(entries[..]);
      if entryFree == RULE_ENTRY_MAX {
        return NotExist;
      }
      var at := Find(rule);
      if at < 0 {
        return NotExist;
      }
      FreeSlot(entries[..], at);
      entries[at] := entries[at].(used := false);
      entryFree := entryFree + 1;
      uncommitted := true;
      return Ok;
    }

    /** Rule_del_by_id. None stands for a slot number past the array, which the code reads unless the list is empty. */
    method DelById(id: nat) returns (status: Option<Status>)
      requires Valid()
      modifies this, entries
      ensures Valid()
      ensures status.None? <==> id >= RULE_ENTRY_MAX && old(Stored()) != {}
      ensures id < RULE_ENTRY_MAX ==> status == Some(if old(entries[id].used) then Ok else NotExist)
      ensures id < RULE_ENTRY_MAX && old(entries[id].used) ==>
                old(entries[id].tuple) in old(Stored()) && Stored() == old(Stored()) - {old(entries[id].tuple)}
      ensures status != Some(Ok) ==> Stored() == old(Stored())
      ensures uncommitted == (status == Some(Ok) || old(uncommitted))
    {
      FreeSlotsCountRules(entries[..]);
      if entryFree == RULE_ENTRY_MAX {
        assert id < RULE_ENTRY_MAX && entries[..][id].used ==> entries[..][id].tuple in Stored();
        return Some(NotExist);
      }
      if id >= entries.Length {
        return None;
      }
      if !entries[id].used {
        return Some(NotExist);
      }
      assert entries[..][id].tuple in Stored();
      FreeSlot(entries[..], id);
      entries[id] := entries[id].(used := false);
      entryFree := entryFree + 1;
      uncommitted := true;
      return Some(Ok);
    }

    /** Rule_del_all */
    method DelAll()
      modifies this, entries
      requires Valid()
      ensures Valid() && Stored() == {} && entryFree == RULE_ENTRY_MAX && uncommitted
    {
      var i := 0;
      while i < RULE_ENTRY_MAX
        invariant 0 <= i <= RULE_ENTRY_MAX && forall j :: 0 <= j < i ==> !entries[j].used
      {
        entries[i] := entries[i].(used := false);
        i := i + 1;
      }
      entryFree := RULE_ENTRY_MAX;
      uncommitted := true;
      NoneUsed(entries[..]);
    }
  }
}
