/** The current sniffer component: the ledger it fills while Maven runs, the interceptor that feeds
    it, and the session guard whose stop callback writes the report. */
module Sniffer {
  import opened Common
  import opened CallSites
  import opened Ledger
  import opened Report

  const OverlappingSession := "Not supporting overlapping session!"

  /** The output file used when `mojosniffer.file` is not set. */
  const DefaultOutputPath := "sniffer.log"

  datatype Event = SessionStart | SessionStop

  /** How a session callback ends: normally, with `IllegalStateException`, or with
      `UncheckedIOException` when the output file cannot be opened. */
  datatype Status = Ok | IllegalState(message: string) | WriteFailed

  /** The `compareAndSet` guarding both callbacks, on the session flag alone: a start needs an idle
      sniffer and leaves it running, a stop needs a running one and leaves it idle; anything else
      is refused (None) and leaves the flag as it was. */
  function Step(running: bool, e: Event): (r: Option<bool>)
    ensures r.Some? <==> (e == SessionStart <==> !running)
    ensures r.Some? ==> r.value == (e == SessionStart)
  {
    match e
    case SessionStart => if running then None else Some(true)
    case SessionStop => if running then Some(false) else None
  }

  /** The flag after a series of callbacks, or None once one of them is refused. */
  function Replay(running: bool, es: seq<Event>): Option<bool> {
    if es == [] then Some(running)
    else
      match Replay(running, es[..|es| - 1])
      case None => None
      case Some(now) => Step(now, es[|es| - 1])
  }

  /** Starts and stops alternate, beginning with whichever the current flag allows. */
  ghost predicate Alternates(running: bool, es: seq<Event>) {
    forall i | 0 <= i < |es| :: (es[i] == SessionStart) == ((i % 2 == 0) != running)
  }

  /** A series of callbacks is accepted exactly when starts and stops alternate; the sniffer then
      runs after an odd number of them if it was idle, after an even number if it was running. */
  lemma {:induction false} ReplayAcceptsAlternation(running: bool, es: seq<Event>)
    ensures Replay(running, es).Some? <==> Alternates(running, es)
    ensures Replay(running, es).Some? ==> Replay(running, es).value == ((|es| % 2 == 1) != running)
  {
    if es != [] {
      var prefix := es[..|es| - 1];
      ReplayAcceptsAlternation(running, prefix);
      assert forall i | 0 <= i < |prefix| :: prefix[i] == es[i];
      if Alternates(running, es) {
        assert Alternates(running, prefix);
      }
    }
  }

  class MojoSniffer {
    /** `mojosniffer.enabled`. */
    const enabled: bool
    /** `mojosniffer.stacktrace`: read at construction, never consulted afterwards. */
    const stackTrace: bool
    /** `mojosniffer.file`, or "sniffer.log". */
    const outputPath: string

    /** target -> method signature -> call sites. */
    var invocations: Ledger
    /** The `sessionRuns` flag. */
    var sessionRuns: bool

    /** The system properties are passed in rather than read. */
    constructor(enabledProperty: bool, stackTraceProperty: bool, fileProperty: Option<string>)
      ensures enabled == enabledProperty && stackTrace == stackTraceProperty
      ensures outputPath == (if fileProperty.Some? then fileProperty.value else DefaultOutputPath)
      ensures invocations == map[] && !sessionRuns
    {
      enabled := enabledProperty;
      stackTrace := stackTraceProperty;
      outputPath := if fileProperty.Some? then fileProperty.value else DefaultOutputPath;
      invocations := map[];
      sessionRuns := false;
    }

    /** `log`: the two `computeIfAbsent` calls, then the call site joins the method's set. The
        session flag plays no part: calls are recorded before, during and after a session. */
    method Log(inv: Invocation)
      modifies this`invocations
      ensures invocations == Record(old(invocations), enabled, inv)
    {
      if !enabled {
        return;
      }
      if inv.receiver.None? {
        return;
      }
      var target := inv.receiver.value;
      ghost var before := invocations;
      ghost var known := if target in before then before[target] else map[];
      if target !in invocations {
        invocations := invocations[target := map[]];
      }
      var methods := invocations[target];
      if inv.sig !in methods {
        methods := methods[inv.sig := {}];
        invocations := invocations[target := methods];
      }
      var stackTraces := methods[inv.sig];
      var stack := Skip(inv.frames, LinesToIgnore);
      invocations := invocations[target := methods[inv.sig := stackTraces + {stack}]];
      assert methods[inv.sig := stackTraces + {stack}] == known[inv.sig := StacksOf(before, target, inv.sig) + {stack}];
    }

    /** `intercept`: records the call, then hands back whatever the intercepted method returned
        (`proceeded`, the outcome of `proceed()`). */
    method Intercept<T>(inv: Invocation, proceeded: T) returns (r: T)
      modifies this`invocations
      ensures invocations == Record(old(invocations), enabled, inv)
      ensures r == proceeded
    {
      Log(inv);
      r := proceeded;
    }

    /** `sessionStarted`: refused while a session runs; otherwise the sniffer now runs. */
    method SessionStarted() returns (st: Status)
      modifies this`sessionRuns
      ensures Step(old(sessionRuns), SessionStart).Some? ==> st == Ok
      ensures Step(old(sessionRuns), SessionStart).None? ==> st == IllegalState(OverlappingSession)
      ensures sessionRuns
    {
      if !sessionRuns {
        sessionRuns := true;
        st := Ok;
        return;
      }
      st := IllegalState(OverlappingSession);
    }

    /** `sessionStopped`: refused while idle. Otherwise the sniffer becomes idle and, when
        enabled, writes the report of the whole ledger, in the iteration order `tl`, to the output
        file (`openFails`: the file cannot be opened, so nothing is written). The ledger itself is
        kept as it is. */
    method SessionStopped(mavenVersion: string, openFails: bool)
      returns (st: Status, out: seq<string>, ghost tl: TargetListing)
      modifies this`sessionRuns
      ensures !sessionRuns
      ensures Step(old(sessionRuns), SessionStop).None? ==> st == IllegalState(OverlappingSession) && out == []
      ensures old(sessionRuns) && !enabled ==> st == Ok && out == []
      ensures old(sessionRuns) && enabled && openFails ==> st == WriteFailed && out == []
      ensures old(sessionRuns) && enabled && !openFails ==>
        st == Ok && ListsLedger(tl, invocations) && out == ReportLines(mavenVersion, tl)
    {
      out, tl := [], [];
      if sessionRuns {
        sessionRuns := false;
        if enabled {
          if openFails {
            st := WriteFailed;
            return;
          }
          out, tl := WriteReport(mavenVersion, invocations);
        }
        st := Ok;
        return;
      }
      st := IllegalState(OverlappingSession);
    }
  }

  /** End to end: after an enabled sniffer has seen `invs`, the ledger holds every observed call,
      and the report written at stop, in any iteration order, shows it under its own target and
      method. The report contains the target's block, built from exactly that target's methods
      and their call sites. That block holds the method's block, which opens with the signature
      and holds the call site itself, frame by frame, whenever it is not internal. */
  lemma ObservedCallsReported(mavenVersion: string, invs: seq<Invocation>, tl: TargetListing,
                              target: string, sig: string, stack: Stack)
    requires ListsLedger(tl, RecordAll(map[], true, invs))
    requires Observed(invs, target, sig, stack)
    ensures target in RecordAll(map[], true, invs) && sig in RecordAll(map[], true, invs)[target]
    ensures Contains(ReportLines(mavenVersion, tl), ["===> " + target])
    ensures exists ml: MethodListing, order: seq<Stack> ::
              && ListsMethods(ml, RecordAll(map[], true, invs)[target])
              && Enumerates(order, RecordAll(map[], true, invs)[target][sig])
              && Contains(ReportLines(mavenVersion, tl), TargetBlock(target, ml))
              && Contains(TargetBlock(target, ml), MethodBlock(sig, order))
              && StartsWith(MethodBlock(sig, order), ["", "     " + sig])
              && (!IsInternalCall(stack, SnifferClass) ==> Contains(MethodBlock(sig, order), stack + [""]))
  {
    var l := RecordAll(map[], true, invs);
    LedgerHoldsObservedCalls(invs, target, sig, stack);
    ReportCoversLedger(mavenVersion, tl, l, target, sig);
    var ml: MethodListing, order: seq<Stack> :|
      && ListsMethods(ml, l[target])
      && Enumerates(order, l[target][sig])
      && Contains(ReportLines(mavenVersion, tl), TargetBlock(target, ml))
      && Contains(TargetBlock(target, ml), MethodBlock(sig, order));
    var block := MethodBlock(sig, order);
    assert block[..2] == ["", "     " + sig];
    if !IsInternalCall(stack, SnifferClass) {
      ElementsAreMembers(order, stack);
      var k :| 0 <= k < |order| && order[k] == stack;
      MethodBlockShowsCallSites(sig, order);
    }
  }
}
