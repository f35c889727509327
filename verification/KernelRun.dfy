/**
 * Whole runs on the kernel's objects: a list of calls performed on a warden object leaves it holding
 * what the specification's run leaves, and a call that raises leaves every right where it was.
 */
module KernelRun {
  import opened Common
  import opened KernelSpec
  import opened KernelInvariant
  import opened KernelGuarantees
  import opened KernelHeap

  method PerformGrant(w: WardenObject, c: Call) returns (raised: bool)
    requires w.Valid() && FreshCall(w.View(), c) && (c.IssueRootCall? || c.SpawnCall?)
    modifies w, w.leases.Values
    ensures w.Valid() && w.View() == Apply(old(w.View()), c) && raised == Raises(old(w.View()), c)
    ensures forall x :: x in w.leases ==> w.leases[x] in old(w.leases.Values) || fresh(w.leases[x])
  {
    match c
    case IssueRootCall(id, lineage, subject, allocation, capabilities, machine, ttl, now) =>
      var made := w.IssueRoot(id, lineage, subject, allocation, capabilities, machine, ttl, now);
      raised := made.None?;
    case SpawnCall(parent, id, subject, allocation, capabilities, chosen, ttl, now) =>
      var made := w.SpawnLocal(parent, id, subject, allocation, capabilities, chosen, ttl, now);
      raised := made.None?;
  }

  method PerformUse(w: WardenObject, c: Call) returns (raised: bool)
    requires w.Valid() && Sound(w.View()) && (c.ExecuteCall? || c.QuiesceCall? || c.ResumeCall? || c.RenewCall?)
    modifies w, w.leases.Values
    ensures w.Valid() && w.leases == old(w.leases)
    ensures w.View() == Apply(old(w.View()), c) && raised == Raises(old(w.View()), c)
  {
    match c
    case ExecuteCall(lease, name, evidence, now) =>
      var moved := w.Execute(lease, name, evidence, now);
      raised := moved.None?;
    case QuiesceCall(lease, now) =>
      var error := w.SetQuiescent(lease, now);
      raised := error.Some?;
    case ResumeCall(lease, now) =>
      var error := w.Resume(lease, now);
      raised := error.Some?;
    case RenewCall(lease, ttl, now) =>
      assert lease in w.leases ==> WellKept(w.View(), lease);
      var error := w.Renew(lease, ttl, now);
      raised := error.Some?;
  }

  method PerformEnd(w: WardenObject, c: Call) returns (raised: bool)
    requires w.Valid() && Sound(w.View()) && (c.RevokeCall? || c.CloseCall? || c.ReclaimCall?)
    modifies w, w.leases.Values
    ensures w.Valid() && w.leases == old(w.leases)
    ensures w.View() == Apply(old(w.View()), c) && raised == Raises(old(w.View()), c)
  {
    match c
    case RevokeCall(branch, epoch) =>
      var affected := w.RevokeBranch(branch, epoch);
      raised := false;
    case CloseCall(lease) =>
      var returned := w.Close(lease);
      raised := returned.None?;
    case ReclaimCall(now) =>
      var reclaimed := w.ReclaimExpired(now);
      raised := reclaimed.None?;
  }

  /** One call on the objects; if it raises, it has moved nothing. */
  method Perform(w: WardenObject, c: Call) returns (raised: bool)
    requires w.Valid() && Sound(w.View()) && FreshCall(w.View(), c)
    modifies w, w.leases.Values
    ensures w.Valid() && w.View() == Apply(old(w.View()), c) && raised == Raises(old(w.View()), c)
    ensures raised ==> w.View() == old(w.View()).(machines := w.machines)
    ensures forall x :: x in w.leases ==> w.leases[x] in old(w.leases.Values) || fresh(w.leases[x])
  {
    ghost var before := w.View();
    if Raises(before, c) {
      RaisedCallMovesNothing(before, c);
    }
    match c
    case IssueRootCall(_, _, _, _, _, _, _, _) => raised := PerformGrant(w, c);
    case SpawnCall(_, _, _, _, _, _, _, _) => raised := PerformGrant(w, c);
    case RevokeCall(_, _) => raised := PerformEnd(w, c);
    case CloseCall(_) => raised := PerformEnd(w, c);
    case ReclaimCall(_) => raised := PerformEnd(w, c);
    case _ => raised := PerformUse(w, c);
  }

  /** A list of calls on the objects is the specification's run on their values. */
  method PerformAll(w: WardenObject, calls: seq<Call>)
    requires w.Valid() && Sound(w.View()) && FreshRun(w.View(), calls)
    modifies w, w.leases.Values
    ensures w.Valid() && w.View() == RunCalls(old(w.View()), calls)
  {
    for i := 0 to |calls|
      invariant w.Valid() && Sound(w.View()) && FreshRun(w.View(), calls[i..])
      invariant RunCalls(w.View(), calls[i..]) == RunCalls(old(w.View()), calls)
      invariant forall x :: x in w.leases ==> w.leases[x] in old(w.leases.Values) || fresh(w.leases[x])
    {
      assert calls[i..][0] == calls[i] && calls[i..][1..] == calls[i + 1..];
      ApplyKeeps(w.View(), calls[i]);
      var raised := Perform(w, calls[i]);
    }
  }
}
