/** The multi-warden system on the heap: warden objects in a dictionary, transfers updated in place. */
module KernelSystemHeap {
  import opened Common
  import opened KernelSpec
  import opened KernelSystem
  import opened KernelHeap

  ghost predicate Apart(v: WardenObject, w: WardenObject)
    reads v`leases, w`leases
  {
    v != w && v.leases.Values !! w.leases.Values
  }

  class SystemObject {
    const budget: Vector
    const wardens: map<string, WardenObject>
    var transfers: map<string, Transfer>

    /** The lease objects of all wardens. */
    ghost function Leases(): set<LeaseObject>
      reads wardens.Values
    {
      set w, x | w in wardens && x in wardens[w].leases :: wardens[w].leases[x]
    }

    /** No two names share a warden object, and no two wardens a lease object. */
    ghost predicate Valid()
      reads wardens.Values`leases
    {
      && (forall a :: a in wardens ==> wardens[a].Valid())
      && (forall a, b :: a in wardens && b in wardens && a != b ==> Apart(wardens[a], wardens[b]))
    }

    ghost function Values(): map<string, Warden>
      reads wardens.Values, Leases()
    {
      map w | w in wardens :: wardens[w].View()
    }

    ghost function View(): System
      reads this, wardens.Values, Leases()
    {
      System(budget, Values(), transfers)
    }

    constructor (budget: Vector, wardens: map<string, WardenObject>)
      requires forall a :: a in wardens ==> wardens[a].Valid()
      requires forall a, b :: a in wardens && b in wardens && a != b ==> Apart(wardens[a], wardens[b])
      ensures Valid() && this.budget == budget && this.wardens == wardens && transfers == map[]
    {
      this.budget, this.wardens, transfers := budget, wardens, map[];
    }

    /** Updates one warden in place; every other warden keeps its values. */
    method Credit(w: string, pool: Vector, ids: set<string>)
      requires Valid() && w in wardens
      modifies {wardens[w]}`freePool, {wardens[w]}`accepted
      ensures Values() == old(Values())[w := old(Values())[w].(pool := pool, accepted := ids)]
    {
      ghost var before := Values();
      assert forall x :: x in wardens && x != w ==> Apart(wardens[x], wardens[w]);
      wardens[w].SetPool(pool, ids);
      ValuesAre(before[w := before[w].(pool := pool, accepted := ids)]);
    }

    lemma ValuesAre(values: map<string, Warden>)
      requires values.Keys == wardens.Keys && forall x :: x in wardens ==> wardens[x].View() == values[x]
      ensures Values() == values
    {
    }

    method Enter(id: string, t: Transfer)
      modifies this`transfers
      ensures transfers == old(transfers)[id := t] && Values() == old(Values())
    {
      transfers := transfers[id := t];
    }

    /** Updates one warden and one transfer. */
    method Commit(w: string, pool: Vector, ids: set<string>, id: string, t: Transfer)
      requires Valid() && w in wardens
      modifies this`transfers, {wardens[w]}`freePool, {wardens[w]}`accepted
      ensures View() == old(View()).(
        wardens := old(Values())[w := old(Values())[w].(pool := pool, accepted := ids)],
        transfers := old(transfers)[id := t])
    {
      Credit(w, pool, ids);
      Enter(id, t);
    }

    method PrepareTransfer(id: string, source: string, target: string, amount: Vector) returns (error: Option<Error>)
      requires Valid()
      modifies this`transfers, wardens.Values`freePool, wardens.Values`accepted
      ensures match old(KernelSystem.PrepareTransfer(View(), id, source, target, amount))
        case Failed(e) => error == Some(e) && View() == old(View())
        case Did(s, _) => error == None && View() == s
    {
      if source == target {
        return Some(ValueError);
      }
      if source !in wardens {
        return Some(KeyError);
      }
      var w := wardens[source];
      assert Values()[source] == w.View();
      var rest := VSub(w.freePool, amount);
      if rest.None? {
        return Some(ValueError);
      }
      Commit(source, rest.value, w.accepted, id, Transfer(source, target, amount, false));
      error := None;
    }

    /** Answers whether the rights were credited now; a second delivery answers no. */
    method AcceptTransfer(id: string) returns (credited: Option<bool>)
      requires Valid()
      modifies this`transfers, wardens.Values`freePool, wardens.Values`accepted
      ensures match old(KernelSystem.AcceptTransfer(View(), id))
        case Failed(_) => credited == None && View() == old(View())
        case Did(s, now) => credited == Some(now) && View() == s
    {
      if id !in transfers || transfers[id].target !in wardens {
        return None;
      }
      var t := transfers[id];
      var w := wardens[t.target];
      assert Values()[t.target] == w.View();
      if id in w.accepted || t.accepted {
        return Some(false);
      }
      var pool := VAdd(w.freePool, t.amount);
      if pool.None? {
        return None;
      }
      Commit(t.target, pool.value, w.accepted + {id}, id, t.(accepted := true));
      credited := Some(true);
    }
  }
}
