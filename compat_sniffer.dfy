/** The older sniffer component (org.cstamas...MojoSniffer): a flat ledger from method to call
    sites, written to as calls happen. A call site is written out the first time it is seen for its
    method, unless it is internal; a repeat is only recorded. */
module CompatSniffer {
  import opened Common
  import opened CallSites

  /** Lines of a fresh stack trace that belong to the interception machinery. */
  const LinesToIgnore: nat := 6

  /** `MojoSniffer.class.getName()` of this variant, the marker of internal calls. */
  const SnifferClass := "org.cstamas.maven.components.mojosniffer.MojoSniffer"

  /** The one line written per call site when stack traces are off. */
  const CompactPrefix := "Using maven-compat deprecated method: "

  /** One intercepted call: the method's generic signature and the raw lines of the stack trace
      taken inside `log`. */
  datatype Call = Call(sig: string, frames: seq<string>)

  /** What the writer receives for a newly seen surface call site: the signature and then every
      frame with `MojoSniffer.stacktrace` set, one compact line without it. */
  function Emission(printStackTrace: bool, sig: string, stack: Stack): seq<string> {
    if printStackTrace then [sig] + stack else [CompactPrefix + sig]
  }

  /** The two output modes, line by line. */
  lemma EmissionModes(printStackTrace: bool, sig: string, stack: Stack)
    ensures printStackTrace ==>
      |Emission(printStackTrace, sig, stack)| == |stack| + 1
      && Emission(printStackTrace, sig, stack)[0] == sig
      && Emission(printStackTrace, sig, stack)[1..] == stack
    ensures !printStackTrace ==>
      |Emission(printStackTrace, sig, stack)| == 1
      && StartsWith(Emission(printStackTrace, sig, stack)[0], CompactPrefix)
      && Emission(printStackTrace, sig, stack)[0][|CompactPrefix|..] == sig
  {
  }

  /** The ledger and everything written so far. */
  datatype State = State(invocations: map<string, set<Stack>>, output: seq<string>)

  function Known(inv: map<string, set<Stack>>, sig: string): set<Stack> {
    if sig in inv then inv[sig] else {}
  }

  /** `log`, as a function of the state: the call site joins its method's set, and it is written
      out exactly when `add` reports it new and it is not internal. */
  function LogStep(s: State, enabled: bool, printStackTrace: bool, call: Call): (r: State)
    ensures !enabled ==> r == s
    ensures enabled ==> r.invocations.Keys == s.invocations.Keys + {call.sig}
    ensures enabled ==> Known(r.invocations, call.sig)
                        == Known(s.invocations, call.sig) + {Skip(call.frames, LinesToIgnore)}
    ensures forall m | m in s.invocations && m != call.sig :: r.invocations[m] == s.invocations[m]
    ensures StartsWith(r.output, s.output)
  {
    if !enabled then s
    else
      var stack := Skip(call.frames, LinesToIgnore);
      var known := Known(s.invocations, call.sig);
      var invocations := s.invocations[call.sig := known + {stack}];
      if stack !in known && !IsInternalCall(stack, SnifferClass) then
        State(invocations, s.output + Emission(printStackTrace, call.sig, stack))
      else
        State(invocations, s.output)
  }

  /** The state after a series of calls, in order. */
  function LogAll(s: State, enabled: bool, printStackTrace: bool, calls: seq<Call>): State {
    if calls == [] then s
    else LogStep(LogAll(s, enabled, printStackTrace, calls[..|calls| - 1]), enabled, printStackTrace,
                 calls[|calls| - 1])
  }

  /** A disabled sniffer neither records nor writes, however many calls it sees. */
  lemma {:induction false} DisabledIsInert(s: State, printStackTrace: bool, calls: seq<Call>)
    ensures LogAll(s, false, printStackTrace, calls) == s
  {
    if calls != [] {
      DisabledIsInert(s, printStackTrace, calls[..|calls| - 1]);
    }
  }

  /** A call site already recorded for its method writes nothing, and seeing a call twice in a
      row is the same as seeing it once. */
  lemma RepeatIsSilent(s: State, enabled: bool, printStackTrace: bool, call: Call)
    ensures Skip(call.frames, LinesToIgnore) in Known(s.invocations, call.sig) ==>
      LogStep(s, enabled, printStackTrace, call).output == s.output
    ensures LogStep(LogStep(s, enabled, printStackTrace, call), enabled, printStackTrace, call)
         == LogStep(s, enabled, printStackTrace, call)
  {
    var once := LogStep(s, enabled, printStackTrace, call);
    if enabled {
      assert once.invocations[call.sig := Known(once.invocations, call.sig) + {Skip(call.frames, LinesToIgnore)}]
          == once.invocations;
    }
  }

  /** Internal call sites are recorded but never written. */
  lemma InternalNeverWritten(s: State, enabled: bool, printStackTrace: bool, call: Call)
    requires IsInternalCall(Skip(call.frames, LinesToIgnore), SnifferClass)
    ensures LogStep(s, enabled, printStackTrace, call).output == s.output
    ensures enabled ==>
      Skip(call.frames, LinesToIgnore) in LogStep(s, enabled, printStackTrace, call).invocations[call.sig]
  {
  }

  /** Call `i` is the first of `calls` with its method and its call site. */
  ghost predicate FirstSighting(calls: seq<Call>, i: int)
    requires 0 <= i < |calls|
  {
    forall j | 0 <= j < i :: !(calls[j].sig == calls[i].sig
                               && Skip(calls[j].frames, LinesToIgnore) == Skip(calls[i].frames, LinesToIgnore))
  }

  /** What call `i` of `calls` writes: its emission when it is the first sighting of a surface
      call site, nothing otherwise. */
  ghost function Written(printStackTrace: bool, calls: seq<Call>, i: int): seq<string>
    requires 0 <= i < |calls|
  {
    var stack := Skip(calls[i].frames, LinesToIgnore);
    if FirstSighting(calls, i) && !IsInternalCall(stack, SnifferClass)
    then Emission(printStackTrace, calls[i].sig, stack) else []
  }

  /** The writer's contents defined call by call, without reference to the ledger. */
  ghost function ExpectedOutput(printStackTrace: bool, calls: seq<Call>): seq<string> {
    if calls == [] then []
    else ExpectedOutput(printStackTrace, calls[..|calls| - 1]) + Written(printStackTrace, calls, |calls| - 1)
  }

  /** `stack` was met for method `sig` among `calls`. */
  ghost predicate Seen(calls: seq<Call>, sig: string, stack: Stack) {
    exists j | 0 <= j < |calls| :: calls[j].sig == sig && Skip(calls[j].frames, LinesToIgnore) == stack
  }

  /** From a fresh sniffer, the ledger holds exactly the call sites met, under their methods. */
  lemma {:induction false} LedgerFromFresh(printStackTrace: bool, calls: seq<Call>, sig: string, stack: Stack)
    ensures stack in Known(LogAll(State(map[], []), true, printStackTrace, calls).invocations, sig)
            <==> Seen(calls, sig, stack)
  {
    if calls != [] {
      var i := |calls| - 1;
      var prefix := calls[..i];
      LedgerFromFresh(printStackTrace, prefix, sig, stack);
      if Seen(prefix, sig, stack) {
        var j :| 0 <= j < |prefix| && prefix[j].sig == sig && Skip(prefix[j].frames, LinesToIgnore) == stack;
        assert calls[j] == prefix[j];
      }
      if Seen(calls, sig, stack) && !Seen(prefix, sig, stack) {
        var j :| 0 <= j < |calls| && calls[j].sig == sig && Skip(calls[j].frames, LinesToIgnore) == stack;
        assert j == i;
      }
      if calls[i].sig == sig && Skip(calls[i].frames, LinesToIgnore) == stack {
        assert Seen(calls, sig, stack);
      }
    }
  }

  /** The last call is a first sighting exactly when the calls before it never met its call site. */
  lemma FirstSightingOfLast(calls: seq<Call>)
    requires calls != []
    ensures FirstSighting(calls, |calls| - 1)
        <==> !Seen(calls[..|calls| - 1], calls[|calls| - 1].sig, Skip(calls[|calls| - 1].frames, LinesToIgnore))
  {
    var i := |calls| - 1;
    var prefix := calls[..i];
    var stack := Skip(calls[i].frames, LinesToIgnore);
    if !FirstSighting(calls, i) {
      var j :| 0 <= j < i && calls[j].sig == calls[i].sig && Skip(calls[j].frames, LinesToIgnore) == stack;
      assert prefix[j] == calls[j];
    }
    if Seen(prefix, calls[i].sig, stack) {
      var j :| 0 <= j < |prefix| && prefix[j].sig == calls[i].sig && Skip(prefix[j].frames, LinesToIgnore) == stack;
      assert calls[j] == prefix[j];
    }
  }

  /** From a fresh sniffer, the writer holds exactly the emissions of the first sightings of
      surface call sites, in the order they happened. */
  lemma {:induction false} OutputFromFresh(printStackTrace: bool, calls: seq<Call>)
    ensures LogAll(State(map[], []), true, printStackTrace, calls).output == ExpectedOutput(printStackTrace, calls)
  {
    if calls != [] {
      var i := |calls| - 1;
      OutputFromFresh(printStackTrace, calls[..i]);
      LedgerFromFresh(printStackTrace, calls[..i], calls[i].sig, Skip(calls[i].frames, LinesToIgnore));
      FirstSightingOfLast(calls);
    }
  }

  /** In stack-trace mode, every surface call site met is in the output: its method's signature
      and then its frames, adjacent. */
  lemma {:induction false} SurfaceCallWritten(calls: seq<Call>, k: int)
    requires 0 <= k < |calls|
    requires !IsInternalCall(Skip(calls[k].frames, LinesToIgnore), SnifferClass)
    ensures Contains(ExpectedOutput(true, calls), [calls[k].sig] + Skip(calls[k].frames, LinesToIgnore))
  {
    var i := |calls| - 1;
    var prefix := calls[..i];
    var part := [calls[k].sig] + Skip(calls[k].frames, LinesToIgnore);
    var earlier := ExpectedOutput(true, prefix);
    var last := Written(true, calls, i);
    assert ExpectedOutput(true, calls) == earlier + last;
    if k < i {
      assert prefix[k] == calls[k];
      SurfaceCallWritten(prefix, k);
      ContainsFrame([], earlier, last, part);
      assert [] + earlier + last == earlier + last;
    } else if FirstSighting(calls, i) {
      assert last == part;
      ContainsAt(part, part, 0);
      ContainsFrame(earlier, part, [], part);
      assert earlier + part + [] == earlier + last;
    } else {
      var j :| 0 <= j < i && calls[j].sig == calls[i].sig
               && Skip(calls[j].frames, LinesToIgnore) == Skip(calls[i].frames, LinesToIgnore);
      assert prefix[j] == calls[j];
      SurfaceCallWritten(prefix, j);
      ContainsFrame([], earlier, last, part);
      assert [] + earlier + last == earlier + last;
    }
  }

  class CompatMojoSniffer {
    /** `MojoSniffer.enabled`. */
    const enabled: bool
    /** `MojoSniffer.stacktrace`. */
    const printStackTrace: bool

    /** method signature -> call sites. */
    var invocations: map<string, set<Stack>>
    /** The lines written so far to the output file. */
    var output: seq<string>

    /** The system properties are passed in rather than read. */
    constructor(enabledProperty: bool, stackTraceProperty: bool)
      ensures enabled == enabledProperty && printStackTrace == stackTraceProperty
      ensures invocations == map[] && output == []
    {
      enabled := enabledProperty;
      printStackTrace := stackTraceProperty;
      invocations := map[];
      output := [];
    }

    /** `log`: `computeIfAbsent`, then `add`, whose result decides whether anything is written. */
    method Log(call: Call)
      modifies this`invocations, this`output
      ensures State(invocations, output) == LogStep(State(old(invocations), old(output)), enabled, printStackTrace, call)
    {
      if !enabled {
        return;
      }
      var sig := call.sig;
      if sig !in invocations {
        invocations := invocations[sig := {}];
      }
      var stackTraces := invocations[sig];
      var stack := Skip(call.frames, LinesToIgnore);
      var added := stack !in stackTraces;
      invocations := invocations[sig := stackTraces + {stack}];
      if added {
        if !IsInternalCall(stack, SnifferClass) {
          if printStackTrace {
            output := output + [sig];
            output := AppendLines(output, stack);
          } else {
            output := output + [CompactPrefix + sig];
          }
        }
      }
    }

    /** `intercept`: records the call, then hands back whatever the intercepted method returned
        (`proceeded`, the outcome of `proceed()`). */
    method Intercept<T>(call: Call, proceeded: T) returns (r: T)
      modifies this`invocations, this`output
      ensures State(invocations, output) == LogStep(State(old(invocations), old(output)), enabled, printStackTrace, call)
      ensures r == proceeded
    {
      Log(call);
      r := proceeded;
    }

    /** `sessionStarted` only logs: no state, no ledger, no output. */
    method SessionStarted()
      ensures unchanged(this)
    {
    }

    /** `sessionStopped` only logs: the ledger is kept and nothing more is written. */
    method SessionStopped()
      ensures unchanged(this)
    {
    }
  }
}
