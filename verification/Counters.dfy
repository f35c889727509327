/**
 * The two baseline counters: a durable one backed by a table of requests, and a replicated state
 * machine backed by a dictionary of decisions. Fed the same requests they answer alike, and the
 * answers are those of a rule that looks at the requests alone.
 */
module Counters {
  import opened Common

  datatype Request = Request(id: string, site: string)
  datatype Outcome = Authorized | Exhausted
  datatype Row = Row(site: string, outcome: Outcome)
  datatype Reply = Reply(granted: bool, remaining: int)

  // ---- the durable counter ----

  datatype Durable = Durable(remaining: int, consumed: int, requests: map<string, Row>)

  function DurableTake(state: Durable, request: Request): Durable {
    if request.id in state.requests then
      state
    else if state.remaining > 0 then
      Durable(state.remaining - 1, state.consumed + 1, state.requests[request.id := Row(request.site, Authorized)])
    else
      state.(requests := state.requests[request.id := Row(request.site, Exhausted)])
  }

  function DurableReply(state: Durable, id: string): Reply {
    Reply(id in state.requests && state.requests[id].outcome.Authorized?, state.remaining)
  }

  function DurableRun(budget: nat, requests: seq<Request>): Durable {
    if requests == [] then Durable(budget, 0, map[])
    else DurableTake(DurableRun(budget, requests[..|requests| - 1]), requests[|requests| - 1])
  }

  // ---- the replicated state machine ----

  datatype Machine = Machine(remaining: int, decisions: map<string, bool>)

  function MachineTake(state: Machine, id: string): Machine {
    if id in state.decisions then
      state
    else if state.remaining > 0 then
      Machine(state.remaining - 1, state.decisions[id := true])
    else
      state.(decisions := state.decisions[id := false])
  }

  function MachineReply(state: Machine, id: string): Reply {
    Reply(id in state.decisions && state.decisions[id], state.remaining)
  }

  function MachineRun(budget: nat, requests: seq<Request>): Machine {
    if requests == [] then Machine(budget, map[])
    else MachineTake(MachineRun(budget, requests[..|requests| - 1]), requests[|requests| - 1].id)
  }

  function Granted(decisions: map<string, bool>): set<string> {
    set id | id in decisions && decisions[id]
  }

  // ---- the rule ----

  /** The distinct ids among the requests. */
  function Ids(requests: seq<Request>): set<string> {
    set i | 0 <= i < |requests| :: requests[i].id
  }

  /** Where the id of request `i` was first asked for. */
  function FirstAsked(requests: seq<Request>, i: nat): (first: nat)
    requires i < |requests|
    ensures first <= i && requests[first].id == requests[i].id
    ensures forall j :: 0 <= j < first ==> requests[j].id != requests[i].id
  {
    FirstFrom(requests, requests[i].id, 0, i)
  }

  function FirstFrom(requests: seq<Request>, id: string, from: nat, i: nat): (first: nat)
    requires from <= i < |requests| && requests[i].id == id
    ensures from <= first <= i && requests[first].id == id
    ensures forall j :: from <= j < first ==> requests[j].id != id
    decreases i - from
  {
    if requests[from].id == id then from else FirstFrom(requests, id, from + 1, i)
  }

  function Left(budget: nat, asked: nat): nat {
    if asked < budget then budget - asked else 0
  }

  /** A request is granted when fewer ids than the budget were asked for before its own first asking. */
  function Rule(budget: nat, requests: seq<Request>, i: nat): Reply
    requires i < |requests|
  {
    Reply(|Ids(requests[..FirstAsked(requests, i)])| < budget, Left(budget, |Ids(requests[..i + 1])|))
  }

  lemma IdsGrow(requests: seq<Request>, n: nat)
    requires n < |requests|
    ensures Ids(requests[..n + 1]) == Ids(requests[..n]) + {requests[n].id}
  {
    forall id | id in Ids(requests[..n + 1]) ensures id in Ids(requests[..n]) + {requests[n].id} {
      var i :| 0 <= i < n + 1 && requests[..n + 1][i].id == id;
      assert i < n ==> requests[..n][i].id == id;
    }
    forall id | id in Ids(requests[..n]) ensures id in Ids(requests[..n + 1]) {
      var i :| 0 <= i < n && requests[..n][i].id == id;
      assert requests[..n + 1][i].id == id;
    }
    assert requests[..n + 1][n].id == requests[n].id;
  }

  lemma NewExactlyWhenFirst(requests: seq<Request>, n: nat)
    requires n < |requests|
    ensures requests[n].id !in Ids(requests[..n]) <==> FirstAsked(requests, n) == n
  {
    var first := FirstAsked(requests, n);
    if first < n {
      assert requests[..n][first].id == requests[n].id;
    }
  }

  // ---- the state machine follows the rule ----

  lemma MachineNext(budget: nat, requests: seq<Request>, n: nat)
    requires n < |requests|
    ensures MachineRun(budget, requests[..n + 1]) == MachineTake(MachineRun(budget, requests[..n]), requests[n].id)
  {
    assert requests[..n + 1][..n] == requests[..n];
  }

  lemma {:induction false} MachineCounts(budget: nat, requests: seq<Request>, n: nat)
    requires n <= |requests|
    ensures MachineRun(budget, requests[..n]).decisions.Keys == Ids(requests[..n])
    ensures MachineRun(budget, requests[..n]).remaining == Left(budget, |Ids(requests[..n])|)
    decreases n
  {
    if n > 0 {
      MachineCounts(budget, requests, n - 1);
      MachineNext(budget, requests, n - 1);
      IdsGrow(requests, n - 1);
    }
  }

  /** What was decided at the first asking is what stands. */
  lemma {:induction false} MachineDecides(budget: nat, requests: seq<Request>, n: nat, i: nat)
    requires i < n <= |requests|
    ensures requests[i].id in MachineRun(budget, requests[..n]).decisions
    ensures MachineRun(budget, requests[..n]).decisions[requests[i].id] ==
      (|Ids(requests[..FirstAsked(requests, i)])| < budget)
    decreases n
  {
    var first := FirstAsked(requests, i);
    SameFirst(requests, first, i);
    if first == n - 1 {
      FirstDecides(budget, requests, n - 1);
    } else {
      MachineDecides(budget, requests, n - 1, first);
      MachineNext(budget, requests, n - 1);
    }
  }

  lemma FirstDecides(budget: nat, requests: seq<Request>, n: nat)
    requires n < |requests| && FirstAsked(requests, n) == n
    ensures requests[n].id in MachineRun(budget, requests[..n + 1]).decisions
    ensures MachineRun(budget, requests[..n + 1]).decisions[requests[n].id] == (|Ids(requests[..n])| < budget)
  {
    NewExactlyWhenFirst(requests, n);
    MachineCounts(budget, requests, n);
    MachineNext(budget, requests, n);
  }

  lemma SameFirst(requests: seq<Request>, i: nat, j: nat)
    requires i < |requests| && j < |requests| && requests[i].id == requests[j].id
    ensures FirstAsked(requests, i) == FirstAsked(requests, j)
  {
  }

  /** Every answer of the state machine is the rule's. */
  lemma MachineFollowsRule(budget: nat, requests: seq<Request>, i: nat)
    requires i < |requests|
    ensures MachineReply(MachineRun(budget, requests[..i + 1]), requests[i].id) == Rule(budget, requests, i)
  {
    MachineDecides(budget, requests, i + 1, i);
    MachineCounts(budget, requests, i + 1);
  }

  /** Asking again changes nothing but the remaining budget: the first decision is repeated. */
  lemma RepeatsGetFirstAnswer(budget: nat, requests: seq<Request>, i: nat, j: nat)
    requires i < j < |requests| && requests[i].id == requests[j].id
    ensures MachineReply(MachineRun(budget, requests[..i + 1]), requests[i].id).granted ==
      MachineReply(MachineRun(budget, requests[..j + 1]), requests[j].id).granted
  {
    MachineFollowsRule(budget, requests, i);
    MachineFollowsRule(budget, requests, j);
    SameFirst(requests, i, j);
  }

  // ---- the two in lockstep ----

  /** The durable counter's tables hold what the state machine's dictionary holds. */
  ghost predicate Mirrors(durable: Durable, machine: Machine) {
    && durable.remaining == machine.remaining
    && durable.requests.Keys == machine.decisions.Keys
    && (forall id :: id in durable.requests ==> durable.requests[id].outcome.Authorized? == machine.decisions[id])
    && durable.consumed == |Granted(machine.decisions)|
  }

  lemma TakeMirrors(durable: Durable, machine: Machine, request: Request)
    requires Mirrors(durable, machine)
    ensures Mirrors(DurableTake(durable, request), MachineTake(machine, request.id))
  {
    var before, after := Granted(machine.decisions), Granted(MachineTake(machine, request.id).decisions);
    if request.id !in machine.decisions {
      assert after == if machine.remaining > 0 then before + {request.id} else before;
    }
  }

  lemma {:induction false} RunsMirror(budget: nat, requests: seq<Request>)
    ensures Mirrors(DurableRun(budget, requests), MachineRun(budget, requests))
  {
    if requests != [] {
      RunsMirror(budget, requests[..|requests| - 1]);
      TakeMirrors(DurableRun(budget, requests[..|requests| - 1]), MachineRun(budget, requests[..|requests| - 1]),
        requests[|requests| - 1]);
    }
  }

  /** Fed the same requests, the two counters give the same answer, the rule's, to each of them. */
  lemma CountersAnswerAlike(budget: nat, requests: seq<Request>, i: nat)
    requires i < |requests|
    ensures var id := requests[i].id;
      DurableReply(DurableRun(budget, requests[..i + 1]), id) ==
      MachineReply(MachineRun(budget, requests[..i + 1]), id) ==
      Rule(budget, requests, i)
  {
    RunsMirror(budget, requests[..i + 1]);
    MachineFollowsRule(budget, requests, i);
  }

  /** Nothing is granted beyond the budget, and what is consumed is the number of ids granted. */
  lemma BudgetIsConserved(budget: nat, requests: seq<Request>)
    ensures var durable, machine := DurableRun(budget, requests), MachineRun(budget, requests);
      && 0 <= durable.remaining && durable.remaining + durable.consumed == budget
      && durable.consumed == |Granted(machine.decisions)|
      && |Granted(machine.decisions)| == if |Ids(requests)| < budget then |Ids(requests)| else budget
  {
    RunsMirror(budget, requests);
    ConsumedIsSpent(budget, requests);
    MachineCounts(budget, requests, |requests|);
    assert requests[..|requests|] == requests;
  }

  lemma {:induction false} ConsumedIsSpent(budget: nat, requests: seq<Request>)
    ensures DurableRun(budget, requests).remaining + DurableRun(budget, requests).consumed == budget
  {
    if requests != [] {
      ConsumedIsSpent(budget, requests[..|requests| - 1]);
    }
  }

  // ---- the objects ----

  class DurableCounter {
    var remaining: int
    var consumed: int
    var requests: map<string, Row>

    function View(): Durable
      reads this
    {
      Durable(remaining, consumed, requests)
    }

    constructor (budget: nat)
      ensures View() == DurableRun(budget, [])
    {
      remaining, consumed, requests := budget, 0, map[];
    }

    method Take(request: Request) returns (reply: Reply)
      modifies this
      ensures View() == DurableTake(old(View()), request)
      ensures reply == DurableReply(View(), request.id)
    {
      var outcome: Outcome;
      if request.id !in requests {
        outcome := if remaining > 0 then Authorized else Exhausted;
        if remaining > 0 {
          remaining, consumed := remaining - 1, consumed + 1;
        }
        requests := requests[request.id := Row(request.site, outcome)];
      } else {
        outcome := requests[request.id].outcome;
      }
      return Reply(outcome.Authorized?, remaining);
    }
  }

  class BudgetStateMachine {
    var remaining: int
    var decisions: map<string, bool>

    function View(): Machine
      reads this
    {
      Machine(remaining, decisions)
    }

    constructor (budget: nat)
      ensures View() == MachineRun(budget, [])
    {
      remaining, decisions := budget, map[];
    }

    method Take(id: string) returns (reply: Reply)
      modifies this
      ensures View() == MachineTake(old(View()), id)
      ensures reply == MachineReply(View(), id)
    {
      if id !in decisions {
        var granted := remaining > 0;
        if granted {
          remaining := remaining - 1;
        }
        decisions := decisions[id := granted];
      }
      return Reply(decisions[id], remaining);
    }

    function Consumed(): nat
      reads this
    {
      |Granted(decisions)|
    }
  }

  /** The two objects side by side on one request list: the replies are equal, and the rule's; so are the totals. */
  method Replay(budget: nat, requests: seq<Request>) returns (replies: seq<Reply>, consumed: nat)
    ensures |replies| == |requests|
    ensures consumed == if |Ids(requests)| < budget then |Ids(requests)| else budget
    ensures forall i :: 0 <= i < |requests| ==> replies[i] == Rule(budget, requests, i)
  {
    var durable := new DurableCounter(budget);
    var machine := new BudgetStateMachine(budget);
    replies := [];
    for i := 0 to |requests|
      invariant |replies| == i
      invariant forall k :: 0 <= k < i ==> replies[k] == Rule(budget, requests, k)
      invariant durable.View() == DurableRun(budget, requests[..i])
      invariant machine.View() == MachineRun(budget, requests[..i])
    {
      assert requests[..i + 1][..i] == requests[..i];
      CountersAnswerAlike(budget, requests, i);
      var first := durable.Take(requests[i]);
      var second := machine.Take(requests[i].id);
      assert first == second;
      replies := replies + [first];
    }
    assert requests[..|requests|] == requests;
    BudgetIsConserved(budget, requests);
    consumed := machine.Consumed();
    assert consumed == durable.consumed;
  }
}
