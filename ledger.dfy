/** The invocation ledger of the current sniffer: target type, then method signature, then the
    set of distinct call sites seen for that method. */
module Ledger {
  import opened Common
  import opened CallSites

  /** Lines of a fresh stack trace that belong to the interception machinery. */
  const LinesToIgnore: nat := 7

  /** `MojoSniffer.class.getName()`, the marker of internal calls. */
  const SnifferClass := "eu.maveniverse.maven.extensions.mojosniffer.MojoSniffer"

  /** target ("name (CL loader)") -> method generic signature -> call sites. */
  type Ledger = map<string, map<string, set<Stack>>>

  /** One intercepted call: the target key of the receiver (None when `getThis()` is null), the
      method's generic signature, and the raw lines of the stack trace taken inside `log`. */
  datatype Invocation = Invocation(receiver: Option<string>, sig: string, frames: seq<string>)

  /** The call sites recorded for `sig` of `target`; none when either key is missing. */
  function StacksOf(l: Ledger, target: string, sig: string): set<Stack> {
    if target in l && sig in l[target] then l[target][sig] else {}
  }

  /** The two `computeIfAbsent` calls and the set `add`: both keys exist afterwards, the call
      site joins the set for that method, and every other entry stays as it was. */
  function InsertStack(l: Ledger, target: string, sig: string, stack: Stack): (r: Ledger)
    ensures r.Keys == l.Keys + {target}
    ensures r[target].Keys == (if target in l then l[target].Keys else {}) + {sig}
    ensures StacksOf(r, target, sig) == StacksOf(l, target, sig) + {stack}
    ensures forall t | t in l && t != target :: r[t] == l[t]
    ensures forall m | target in l && m in l[target] && m != sig :: r[target][m] == l[target][m]
  {
    var sigs := if target in l then l[target] else map[];
    l[target := sigs[sig := StacksOf(l, target, sig) + {stack}]]
  }

  /** `log`: nothing when the sniffer is disabled or the receiver is null; otherwise the call
      site, minus the interception's own lines, goes into the ledger. */
  function Record(l: Ledger, enabled: bool, inv: Invocation): Ledger {
    if !enabled || inv.receiver.None? then l
    else InsertStack(l, inv.receiver.value, inv.sig, Skip(inv.frames, LinesToIgnore))
  }

  /** The ledger after a series of calls, in order. */
  function RecordAll(l: Ledger, enabled: bool, invs: seq<Invocation>): Ledger {
    if invs == [] then l
    else Record(RecordAll(l, enabled, invs[..|invs| - 1]), enabled, invs[|invs| - 1])
  }

  /** Inserting a call site already present changes nothing: insertion is idempotent. */
  lemma InsertIdempotent(l: Ledger, target: string, sig: string, stack: Stack)
    ensures InsertStack(InsertStack(l, target, sig, stack), target, sig, stack)
         == InsertStack(l, target, sig, stack)
  {
    var once := InsertStack(l, target, sig, stack);
    var twice := InsertStack(once, target, sig, stack);
    assert twice[target] == once[target];
  }

  /** Recording a call site grows its method's set by one exactly when it is new. */
  lemma InsertCardinality(l: Ledger, target: string, sig: string, stack: Stack)
    ensures stack in StacksOf(l, target, sig) ==>
      |StacksOf(InsertStack(l, target, sig, stack), target, sig)| == |StacksOf(l, target, sig)|
    ensures stack !in StacksOf(l, target, sig) ==>
      |StacksOf(InsertStack(l, target, sig, stack), target, sig)| == |StacksOf(l, target, sig)| + 1
  {
    var s := StacksOf(l, target, sig);
    assert StacksOf(InsertStack(l, target, sig, stack), target, sig) == s + {stack};
    if stack in s {
      assert s + {stack} == s;
    }
  }

  /** A disabled sniffer never records anything, however many calls it sees. */
  lemma {:induction false} DisabledRecordsNothing(l: Ledger, invs: seq<Invocation>)
    ensures RecordAll(l, false, invs) == l
  {
    if invs != [] {
      DisabledRecordsNothing(l, invs[..|invs| - 1]);
    }
  }

  /** `inv` was observed on method `sig` of `target` with the call site `stack`. */
  ghost predicate Observed(invs: seq<Invocation>, target: string, sig: string, stack: Stack) {
    exists i | 0 <= i < |invs| ::
      invs[i].receiver == Some(target) && invs[i].sig == sig
      && Skip(invs[i].frames, LinesToIgnore) == stack
  }

  /** Starting from an empty ledger, the ledger holds exactly the call sites observed, each under
      the target and method of a call that produced it: nothing lost, nothing invented. */
  lemma {:induction false} LedgerHoldsObservedCalls(invs: seq<Invocation>, target: string, sig: string, stack: Stack)
    ensures stack in StacksOf(RecordAll(map[], true, invs), target, sig) <==> Observed(invs, target, sig, stack)
  {
    if invs != [] {
      var prefix := invs[..|invs| - 1];
      var inv := invs[|invs| - 1];
      LedgerHoldsObservedCalls(prefix, target, sig, stack);
      if Observed(prefix, target, sig, stack) {
        var i :| 0 <= i < |prefix| && prefix[i].receiver == Some(target) && prefix[i].sig == sig
                 && Skip(prefix[i].frames, LinesToIgnore) == stack;
        assert invs[i] == prefix[i];
      }
      if Observed(invs, target, sig, stack) && !Observed(prefix, target, sig, stack) {
        var i :| 0 <= i < |invs| && invs[i].receiver == Some(target) && invs[i].sig == sig
                 && Skip(invs[i].frames, LinesToIgnore) == stack;
      }
      if inv.receiver == Some(target) && inv.sig == sig && Skip(inv.frames, LinesToIgnore) == stack {
        assert Observed(invs, target, sig, stack);
      }
    }
  }

  /** The same call site reached twice, even through different interception lines, is one
      entry; two different call sites are two. */
  lemma DeduplicatedCallSites(target: string, sig: string, f1: seq<string>, f2: seq<string>, f3: seq<string>)
    requires Skip(f1, LinesToIgnore) == Skip(f2, LinesToIgnore) != Skip(f3, LinesToIgnore)
    ensures |StacksOf(RecordAll(map[], true, [Invocation(Some(target), sig, f1),
                                              Invocation(Some(target), sig, f2)]), target, sig)| == 1
    ensures |StacksOf(RecordAll(map[], true, [Invocation(Some(target), sig, f1),
                                              Invocation(Some(target), sig, f2),
                                              Invocation(Some(target), sig, f3)]), target, sig)| == 2
  {
    var i1, i2, i3 := Invocation(Some(target), sig, f1), Invocation(Some(target), sig, f2),
                      Invocation(Some(target), sig, f3);
    var s1, s3 := Skip(f1, LinesToIgnore), Skip(f3, LinesToIgnore);
    assert [i1][..0] == [] && [i1, i2][..1] == [i1] && [i1, i2, i3][..2] == [i1, i2];
    assert StacksOf(RecordAll(map[], true, [i1]), target, sig) == {s1};
    assert StacksOf(RecordAll(map[], true, [i1, i2]), target, sig) == {s1};
    assert StacksOf(RecordAll(map[], true, [i1, i2, i3]), target, sig) == {s1, s3};
  }
}
