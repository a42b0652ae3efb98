/** Receivers that share one poll: which of them gets which ready socket. */
module Receivers {

  /** One call of `process`: the receiver and the socket. */
  datatype Call = Call(receiver: nat, socket: int)

  /** `zmq_poll`: an error, or how many sockets are ready and which. */
  datatype Poll = PollError | Polled(count: nat, ready: seq<bool>)

  /** How a call of `process` ends. */
  datatype Took = Data | NoData | Threw

  /** User code: what a call does may depend on all calls before it; the last one of the argument is made. */
  type Process = seq<Call> -> Took

  datatype Outcome = Raised | Finished(hadData: bool)

  // ----- who owns a socket -----

  /** All sockets, receiver by receiver. */
  function Sockets(supply: seq<seq<int>>): seq<int> {
    if supply == [] then [] else supply[0] + Sockets(supply[1..])
  }

  /** The index of the receiver that supplied the `k`-th socket. */
  function Owner(supply: seq<seq<int>>, k: nat): (i: nat)
    requires k < |Sockets(supply)|
    ensures i < |supply|
  {
    if k < |supply[0]| then 0 else 1 + Owner(supply[1..], k - |supply[0]|)
  }

  /** The call for the `k`-th socket, if it is ready: it goes to the owner. */
  function CallAt(shared: seq<nat>, supply: seq<seq<int>>, ready: seq<bool>, k: nat): seq<Call>
    requires |shared| == |supply| && k < |Sockets(supply)| == |ready|
  {
    if ready[k] then [Call(shared[Owner(supply, k)], Sockets(supply)[k])] else []
  }

  /** The calls for the first `n` sockets. */
  function CallsUpTo(shared: seq<nat>, supply: seq<seq<int>>, ready: seq<bool>, n: nat): seq<Call>
    requires |shared| == |supply| && n <= |Sockets(supply)| == |ready|
  {
    if n == 0 then []
    else CallsUpTo(shared, supply, ready, n - 1) + CallAt(shared, supply, ready, n - 1)
  }

  // ----- the same, receiver by receiver -----

  function CallsOf(receiver: nat, sockets: seq<int>, ready: seq<bool>): seq<Call>
    requires |sockets| == |ready|
  {
    if sockets == [] then []
    else (if ready[0] then [Call(receiver, sockets[0])] else []) + CallsOf(receiver, sockets[1..], ready[1..])
  }

  function CallsByReceiver(shared: seq<nat>, supply: seq<seq<int>>, ready: seq<bool>): seq<Call>
    requires |shared| == |supply| && |Sockets(supply)| == |ready|
  {
    if supply == [] then []
    else
      CallsOf(shared[0], supply[0], ready[..|supply[0]|]) +
      CallsByReceiver(shared[1..], supply[1..], ready[|supply[0]|..])
  }

  /** The calls from socket `k` on. */
  function CallsFrom(shared: seq<nat>, supply: seq<seq<int>>, ready: seq<bool>, k: nat): seq<Call>
    requires |shared| == |supply| && k <= |Sockets(supply)| == |ready|
    decreases |ready| - k, 1
  {
    if k == |ready| then [] else CallAndMore(shared, supply, ready, k)
  }

  function CallAndMore(shared: seq<nat>, supply: seq<seq<int>>, ready: seq<bool>, k: nat): seq<Call>
    requires |shared| == |supply| && k < |Sockets(supply)| == |ready|
    decreases |ready| - k, 0
  {
    CallAt(shared, supply, ready, k) + CallsFrom(shared, supply, ready, k + 1)
  }

  lemma Associative(a: seq<Call>, b: seq<Call>, c: seq<Call>)
    ensures (a + b) + c == a + (b + c)
  {
  }

  lemma {:induction false} UpToThenFrom(shared: seq<nat>, supply: seq<seq<int>>, ready: seq<bool>, n: nat)
    requires |shared| == |supply| && n <= |Sockets(supply)| == |ready|
    ensures CallsUpTo(shared, supply, ready, n) + CallsFrom(shared, supply, ready, n) ==
      CallsUpTo(shared, supply, ready, |ready|)
    decreases |ready| - n
  {
    if n < |ready| {
      UpToThenFrom(shared, supply, ready, n + 1);
      Associative(CallsUpTo(shared, supply, ready, n), CallAt(shared, supply, ready, n),
        CallsFrom(shared, supply, ready, n + 1));
    }
  }

  /** Going on never changes the calls made so far. */
  lemma {:induction false} UpToGrows(shared: seq<nat>, supply: seq<seq<int>>, ready: seq<bool>, n: nat, m: nat)
    requires |shared| == |supply| && n <= m <= |Sockets(supply)| == |ready|
    ensures CallsUpTo(shared, supply, ready, n) <= CallsUpTo(shared, supply, ready, m)
  {
    if n < m {
      UpToGrows(shared, supply, ready, n, m - 1);
    }
  }

  lemma CallAtFirst(shared: seq<nat>, supply: seq<seq<int>>, ready: seq<bool>, k: nat)
    requires supply != [] && |shared| == |supply| && |Sockets(supply)| == |ready| && k < |supply[0]|
    ensures k < |ready| && CallAt(shared, supply, ready, k) == if ready[k] then [Call(shared[0], supply[0][k])] else []
  {
  }

  lemma CallsOfStep(receiver: nat, sockets: seq<int>, ready: seq<bool>, k: nat)
    requires k < |sockets| == |ready|
    ensures CallsOf(receiver, sockets[k..], ready[k..]) ==
      (if ready[k] then [Call(receiver, sockets[k])] else []) + CallsOf(receiver, sockets[k + 1..], ready[k + 1..])
  {
    assert sockets[k..][1..] == sockets[k + 1..] && ready[k..][1..] == ready[k + 1..];
  }

  /** The sockets of the first receiver, from its `k`-th on, and then those of the others. */
  lemma {:induction false} FromFirst(shared: seq<nat>, supply: seq<seq<int>>, ready: seq<bool>, k: nat,
                                     first: seq<bool>, rest: seq<Call>)
    requires supply != [] && |shared| == |supply| && |Sockets(supply)| == |ready| && k <= |supply[0]| == |first|
    requires first == ready[..|supply[0]|]
    requires rest == CallsFrom(shared[1..], supply[1..], ready[|supply[0]|..], 0)
    ensures CallsFrom(shared, supply, ready, k) == CallsOf(shared[0], supply[0][k..], first[k..]) + rest
    decreases |supply[0]| - k
  {
    if k < |supply[0]| {
      FromFirst(shared, supply, ready, k + 1, first, rest);
      CallAtFirst(shared, supply, ready, k);
      CallsOfStep(shared[0], supply[0], first, k);
      Associative(CallAt(shared, supply, ready, k), CallsOf(shared[0], supply[0][k + 1..], first[k + 1..]), rest);
      assert CallsFrom(shared, supply, ready, k) == CallAndMore(shared, supply, ready, k);
    } else {
      FromRest(shared, supply, ready, k, shared[1..], supply[1..], ready[|supply[0]|..]);
      assert CallsOf(shared[0], supply[0][k..], first[k..]) == [];
    }
  }

  lemma CallAtRest(shared: seq<nat>, supply: seq<seq<int>>, ready: seq<bool>, k: nat,
                   shared': seq<nat>, supply': seq<seq<int>>, ready': seq<bool>)
    requires supply != [] && |shared| == |supply| && |supply[0]| <= k < |Sockets(supply)| == |ready|
    requires shared' == shared[1..] && supply' == supply[1..] && ready' == ready[|supply[0]|..]
    ensures CallAt(shared, supply, ready, k) == CallAt(shared', supply', ready', k - |supply[0]|)
  {
  }

  lemma {:induction false} FromRest(shared: seq<nat>, supply: seq<seq<int>>, ready: seq<bool>, k: nat,
                                    shared': seq<nat>, supply': seq<seq<int>>, ready': seq<bool>)
    requires supply != [] && |shared| == |supply| && |supply[0]| <= k <= |Sockets(supply)| == |ready|
    requires shared' == shared[1..] && supply' == supply[1..] && ready' == ready[|supply[0]|..]
    ensures CallsFrom(shared, supply, ready, k) == CallsFrom(shared', supply', ready', k - |supply[0]|)
    decreases |ready| - k
  {
    if k < |ready| {
      var i := k - |supply[0]|;
      FromRest(shared, supply, ready, k + 1, shared', supply', ready');
      CallAtRest(shared, supply, ready, k, shared', supply', ready');
      assert CallAndMore(shared, supply, ready, k) == CallAndMore(shared', supply', ready', i);
    }
  }

  lemma {:induction false} FromStart(shared: seq<nat>, supply: seq<seq<int>>, ready: seq<bool>)
    requires |shared| == |supply| && |Sockets(supply)| == |ready|
    ensures CallsFrom(shared, supply, ready, 0) == CallsByReceiver(shared, supply, ready)
    decreases |supply|
  {
    if supply != [] {
      var first := ready[..|supply[0]|];
      FromFirst(shared, supply, ready, 0, first, CallsFrom(shared[1..], supply[1..], ready[|supply[0]|..], 0));
      FromStart(shared[1..], supply[1..], ready[|supply[0]|..]);
      assert supply[0][0..] == supply[0] && first[0..] == first;
    }
  }

  /** Going through the sockets is going through the receivers, each with its own ready sockets. */
  lemma SameCalls(shared: seq<nat>, supply: seq<seq<int>>, ready: seq<bool>)
    requires |shared| == |supply| && |Sockets(supply)| == |ready|
    ensures CallsUpTo(shared, supply, ready, |ready|) == CallsByReceiver(shared, supply, ready)
  {
    UpToThenFrom(shared, supply, ready, 0);
    FromStart(shared, supply, ready);
  }

  // ----- the counting walk -----

  function Sizes(supply: seq<seq<int>>): seq<nat> {
    seq(|supply|, i requires 0 <= i < |supply| => |supply[i]|)
  }

  function Offset(supply: seq<seq<int>>, i: nat): nat
    requires i <= |supply|
  {
    if i == 0 then 0 else Offset(supply, i - 1) + |supply[i - 1]|
  }

  lemma SocketsStep(supply: seq<seq<int>>, r: nat, before: seq<int>)
    requires r < |supply|
    ensures before + Sockets(supply[r..]) == (before + supply[r]) + Sockets(supply[r + 1..])
  {
    assert supply[r..][1..] == supply[r + 1..];
  }

  lemma {:induction false} OffsetShift(supply: seq<seq<int>>, i: nat)
    requires supply != [] && 1 <= i <= |supply|
    ensures Offset(supply, i) == |supply[0]| + Offset(supply[1..], i - 1)
  {
    if i > 1 {
      OffsetShift(supply, i - 1);
    }
  }

  lemma {:induction false} OffsetTotal(supply: seq<seq<int>>)
    ensures Offset(supply, |supply|) == |Sockets(supply)|
  {
    if supply != [] {
      OffsetShift(supply, |supply|);
      OffsetTotal(supply[1..]);
    }
  }

  lemma {:induction false} OffsetGrows(supply: seq<seq<int>>, i: nat, j: nat)
    requires i <= j <= |supply|
    ensures Offset(supply, i) <= Offset(supply, j)
  {
    if i < j {
      OffsetGrows(supply, i, j - 1);
    }
  }

  /** Behind an interval that is used up there is another one while sockets are left. */
  lemma NextInterval(supply: seq<seq<int>>, k: nat, i: nat)
    requires k < |Sockets(supply)| && i < |supply| && Offset(supply, i + 1) <= k
    ensures i + 1 < |supply| && Sizes(supply)[i + 1..] != [] && Sizes(supply)[i + 1..][0] == |supply[i + 1]|
    ensures Sizes(supply)[i + 1..][1..] == Sizes(supply)[i + 2..]
    ensures Offset(supply, i + 2) == Offset(supply, i + 1) + |supply[i + 1]|
  {
    OffsetTotal(supply);
  }

  /** The owner of a socket is the receiver in whose interval it lies. */
  lemma {:induction false} OwnerInterval(supply: seq<seq<int>>, k: nat, i: nat)
    requires k < |Sockets(supply)| && i < |supply| && Offset(supply, i) <= k < Offset(supply, i + 1)
    ensures Owner(supply, k) == i
  {
    if i == 0 {
      assert Offset(supply, 1) == Offset(supply, 0) + |supply[0]|;
    } else {
      OffsetShift(supply, i);
      OffsetShift(supply, i + 1);
      OwnerInterval(supply[1..], k - |supply[0]|, i - 1);
    }
  }

  // ----- the shared object -----

  function Removed(shared: seq<nat>, receiver: nat): seq<nat> {
    if shared == [] then []
    else
      var n := |shared| - 1;
      Removed(shared[..n], receiver) + if shared[n] == receiver then [] else [shared[n]]
  }

  /** Did one of the calls end this way? */
  predicate SomeEnded(calls: seq<Call>, process: Process, how: Took)
    decreases |calls|
  {
    calls != [] && (process(calls) == how || SomeEnded(calls[..|calls| - 1], process, how))
  }

  lemma SomeMore(calls: seq<Call>, call: Call, process: Process, how: Took)
    ensures SomeEnded(calls + [call], process, how) <==>
      SomeEnded(calls, process, how) || process(calls + [call]) == how
  {
    assert (calls + [call])[..|calls|] == calls;
  }

  /** Only the receiver is gone; the others keep their number. */
  lemma {:induction false} RemovedMeaning(shared: seq<nat>, receiver: nat, other: nat)
    ensures receiver !in Removed(shared, receiver)
    ensures other != receiver ==> multiset(Removed(shared, receiver))[other] == multiset(shared)[other]
    decreases |shared|
  {
    if shared != [] {
      var n := |shared| - 1;
      RemovedMeaning(shared[..n], receiver, other);
      assert shared == shared[..n] + [shared[n]];
    }
  }

  /** `kept` is read off `shared` at increasing positions, exactly those that do not hold the receiver. */
  predicate ReadOff(shared: seq<nat>, receiver: nat, places: seq<nat>, kept: seq<nat>) {
    && |places| == |kept|
    && (forall k :: 0 <= k < |places| ==> places[k] < |shared|)
    && (forall k :: 0 <= k < |places| ==> kept[k] == shared[places[k]])
    && (forall k, l :: 0 <= k < l < |places| ==> places[k] < places[l])
    && forall i :: 0 <= i < |shared| ==> (i in places <==> shared[i] != receiver)
  }

  /** What is left is what was there, in the same order. */
  lemma {:induction false} RemovedInOrder(shared: seq<nat>, receiver: nat) returns (places: seq<nat>)
    ensures ReadOff(shared, receiver, places, Removed(shared, receiver))
    decreases |shared|
  {
    if shared == [] {
      places := [];
    } else {
      var n := |shared| - 1;
      places := RemovedInOrder(shared[..n], receiver);
      assert shared == shared[..n] + [shared[n]];
      OneMore(shared[..n], receiver, places, Removed(shared[..n], receiver), shared[n]);
      if shared[n] != receiver {
        places := places + [n];
      }
    }
  }

  lemma OneMore(shared: seq<nat>, receiver: nat, places: seq<nat>, kept: seq<nat>, last: nat)
    requires ReadOff(shared, receiver, places, kept)
    ensures last == receiver ==> ReadOff(shared + [last], receiver, places, kept)
    ensures last != receiver ==> ReadOff(shared + [last], receiver, places + [|shared|], kept + [last])
  {
    var n := |shared|;
    assert forall i :: 0 <= i < n ==> (i in places + [n] <==> i in places);
  }

  /** Removing goes through a group part by part. */
  lemma {:induction false} RemovedConcat(a: seq<nat>, b: seq<nat>, receiver: nat)
    ensures Removed(a + b, receiver) == Removed(a, receiver) + Removed(b, receiver)
    decreases |b|
  {
    if b == [] {
      assert a + b == a;
    } else {
      var n := |b| - 1;
      assert (a + b)[..|a + b| - 1] == a + b[..n];
      RemovedConcat(a, b[..n], receiver);
    }
  }

  class Group {
    var shared: seq<nat>

    constructor ()
      ensures shared == []
    {
      shared := [];
    }

    method Add(receiver: nat)
      modifies this
      ensures shared == old(shared) + [receiver]
    {
      shared := shared + [receiver];
    }

    method Remove(receiver: nat)
      modifies this
      ensures shared == Removed(old(shared), receiver)
    {
      var kept := [];
      for i := 0 to |shared|
        invariant kept == Removed(shared[..i], receiver)
      {
        assert shared[..i + 1][..i] == shared[..i];
        if shared[i] != receiver {
          kept := kept + [shared[i]];
        }
      }
      assert shared[..|shared|] == shared;
      shared := kept;
    }

    /** `addSockets` of every receiver, and how many each one added. */
    method Collect(supply: seq<seq<int>>) returns (sockets: seq<int>, intervals: seq<nat>)
      requires |supply| == |shared|
      ensures sockets == Sockets(supply) && intervals == Sizes(supply)
    {
      sockets, intervals := [], [];
      for r := 0 to |shared|
        invariant sockets + Sockets(supply[r..]) == Sockets(supply) && intervals == Sizes(supply[..r])
      {
        var before := |sockets|;
        SocketsStep(supply, r, sockets);
        sockets := sockets + supply[r];
        intervals := intervals + [|sockets| - before];
      }
      assert supply[..|supply|] == supply;
    }

    /** Hands the ready sockets to the receivers: `interval` counts what is left of the current receiver
        `i`. A call that throws is the last one. */
    method Walk(supply: seq<seq<int>>, sockets: seq<int>, intervals0: seq<nat>, ready: seq<bool>, process: Process)
      returns (calls: seq<Call>, haveData: bool, threw: bool)
      requires |supply| == |shared| && sockets == Sockets(supply) && intervals0 == Sizes(supply)
      requires |ready| == |sockets| && sockets != []
      ensures calls <= CallsUpTo(shared, supply, ready, |ready|)
      ensures !threw ==> calls == CallsUpTo(shared, supply, ready, |ready|)
      ensures threw == SomeEnded(calls, process, Threw)
      ensures threw ==> calls != [] && !SomeEnded(calls[..|calls| - 1], process, Threw)
      ensures haveData == SomeEnded(calls, process, Data)
    {
      calls, haveData, threw := [], false, false;
      var intervals, i := intervals0, 0;
      assert supply != [];
      var interval: nat := intervals[0];
      intervals := intervals[1..];
      OffsetTotal(supply);
      assert Offset(supply, 1) == Offset(supply, 0) + |supply[0]|;
      for k := 0 to |sockets|
        invariant 0 <= i < |supply| && intervals == Sizes(supply)[i + 1..]
        invariant Offset(supply, i) <= k && k + interval == Offset(supply, i + 1)
        invariant calls == CallsUpTo(shared, supply, ready, k)
        invariant haveData == SomeEnded(calls, process, Data) && !SomeEnded(calls, process, Threw) && !threw
      {
        while interval == 0
          invariant 0 <= i < |supply| && intervals == Sizes(supply)[i + 1..]
          invariant Offset(supply, i) <= k && k + interval == Offset(supply, i + 1)
          decreases |supply| - i
        {
          NextInterval(supply, k, i);
          i := i + 1;
          interval := intervals[0];
          intervals := intervals[1..];
        }
        interval := interval - 1;
        OwnerInterval(supply, k, i);
        if ready[k] {
          var call := Call(shared[i], sockets[k]);
          SomeMore(calls, call, process, Data);
          SomeMore(calls, call, process, Threw);
          ghost var before := calls;
          calls := calls + [call];
          var took := process(calls);
          if took == Threw {
            UpToGrows(shared, supply, ready, k + 1, |ready|);
            assert calls[..|calls| - 1] == before;
            return calls, haveData, true;
          }
          if took == Data {
            haveData := true;
          }
        }
      }
    }

    /** `_receive`: polls once, whatever the clock says, because the remaining time is set to zero
        before it is looked at. */
    method Receive(supply: seq<seq<int>>, poll: nat -> Poll, clock: nat -> nat, process: Process, timeout0: nat)
      returns (r: Outcome, calls: seq<Call>, rounds: nat)
      requires |supply| == |shared|
      requires forall n :: poll(n).Polled? ==> |poll(n).ready| == |Sockets(supply)|
      requires forall n :: poll(n).Polled? && poll(n).count > 0 ==> Sockets(supply) != []
      ensures rounds == 1
      ensures r == Raised <==> poll(0) == PollError || SomeEnded(calls, process, Threw)
      ensures poll(0) == PollError ==> calls == []
      ensures calls != [] ==> !SomeEnded(calls[..|calls| - 1], process, Threw)
      ensures var all :=
        if poll(0).Polled? && poll(0).count > 0 then CallsByReceiver(shared, supply, poll(0).ready) else [];
        calls <= all && (r.Finished? ==> calls == all)
      ensures r.Finished? ==> r.hadData == SomeEnded(calls, process, Data)
    {
      var timeout, haveData, hadData, again := timeout0, false, false, true;
      calls, rounds := [], 0;
      while again
        invariant again ==> rounds == 0 && calls == [] && !hadData
        invariant !again ==> rounds == 1 && poll(0).Polled? && poll(0).count > 0
        invariant !again ==> calls == CallsByReceiver(shared, supply, poll(0).ready)
        invariant !again ==> hadData == SomeEnded(calls, process, Data) && !SomeEnded(calls, process, Threw)
        decreases again
      {
        var sockets, intervals := Collect(supply);
        rounds := rounds + 1;
        match poll(rounds - 1) {
          case PollError => return Raised, calls, rounds;
          case Polled(count, ready) =>
            if count == 0 {
              return Finished(hadData), calls, rounds;
            }
            haveData := false;
            timeout := 0;
            var threw;
            calls, haveData, threw := Walk(supply, sockets, intervals, ready, process);
            SameCalls(shared, supply, ready);
            if threw {
              return Raised, calls, rounds;
            }
            hadData := hadData || haveData;
        }
        again := haveData && clock(rounds) < timeout;
      }
      return Finished(hadData), calls, rounds;
    }
  }
}
