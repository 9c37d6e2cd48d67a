/** Captured call sites. A call site is the stack trace printed by a fresh `Throwable`, split into
    lines, minus the leading lines that belong to the interception machinery. */
module CallSites {
  import opened Common

  type Stack = seq<string>

  /** `Stream.of(lines).skip(n)`: drops the first `n` lines, all of them when there are fewer. */
  function Skip(frames: seq<string>, n: nat): (r: Stack)
    ensures |r| == if |frames| <= n then 0 else |frames| - n
    ensures forall i | 0 <= i < |r| :: r[i] == frames[i + n]
  {
    if |frames| <= n then [] else frames[n..]
  }

  /** Skipping loses exactly the dropped lines: they and the call site give back the trace. */
  lemma SkipSplits(frames: seq<string>, n: nat)
    requires n <= |frames|
    ensures frames[..n] + Skip(frames, n) == frames
  {
  }

  /** `isInternalCall`: some line of the call site names the sniffer class itself, so the call
      came from inside the interception rather than from a plugin. */
  predicate IsInternalCall(stack: Stack, snifferClass: string) {
    exists i | 0 <= i < |stack| :: Contains(stack[i], snifferClass)
  }

  /** Internal calls stay internal whatever is added around them, and a call site is surface
      only if each of its parts is. */
  lemma InternalCallOfParts(a: Stack, b: Stack, snifferClass: string)
    ensures IsInternalCall(a + b, snifferClass) <==>
      IsInternalCall(a, snifferClass) || IsInternalCall(b, snifferClass)
  {
    if IsInternalCall(a + b, snifferClass) {
      var i :| 0 <= i < |a + b| && Contains((a + b)[i], snifferClass);
      if i >= |a| { assert b[i - |a|] == (a + b)[i]; }
    }
    if IsInternalCall(a, snifferClass) {
      var i :| 0 <= i < |a| && Contains(a[i], snifferClass);
      assert (a + b)[i] == a[i];
      assert Contains((a + b)[i], snifferClass);
    }
    if IsInternalCall(b, snifferClass) {
      var i :| 0 <= i < |b| && Contains(b[i], snifferClass);
      assert (a + b)[|a| + i] == b[i];
      assert Contains((a + b)[|a| + i], snifferClass);
    }
  }
}
