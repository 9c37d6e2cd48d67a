/** The report the current sniffer writes when the session stops: a header, then one block per
    target, one block per method under it, and under each method the first call site plus every
    further call site that is not internal. */
module Report {
  import opened Common
  import opened CallSites
  import opened Ledger

  /** The elements of a sequence, as a set. */
  function Elements<T>(xs: seq<T>): set<T> {
    if xs == [] then {} else Elements(xs[..|xs| - 1]) + {xs[|xs| - 1]}
  }

  lemma {:induction false} ElementsAreMembers<T>(xs: seq<T>, x: T)
    ensures x in Elements(xs) <==> x in xs
  {
    if xs != [] {
      var prefix := xs[..|xs| - 1];
      ElementsAreMembers(prefix, x);
      assert xs == prefix + [xs[|xs| - 1]];
    }
  }

  lemma {:induction false} ElementsAtMost<T>(xs: seq<T>)
    ensures |Elements(xs)| <= |xs|
  {
    if xs != [] {
      ElementsAtMost(xs[..|xs| - 1]);
    }
  }

  /** `order` lists every element of `s` exactly once: one possible iteration order of a hash
      set or of a hash map's keys. */
  ghost predicate Enumerates<T>(order: seq<T>, s: set<T>) {
    Elements(order) == s && |order| == |s|
  }

  /** An enumeration never visits an element twice. */
  lemma {:induction false} EnumerationIsDistinct<T>(order: seq<T>, s: set<T>)
    requires Enumerates(order, s)
    ensures forall i, j | 0 <= i < j < |order| :: order[i] != order[j]
  {
    if order != [] {
      var prefix := order[..|order| - 1];
      var last := order[|order| - 1];
      ElementsAtMost(prefix);
      assert last !in Elements(prefix);
      assert |Elements(prefix)| == |prefix|;
      EnumerationIsDistinct(prefix, Elements(prefix));
      ElementsAreMembers(prefix, last);
      forall i, j | 0 <= i < j < |order| ensures order[i] != order[j] {
        if j < |order| - 1 {
          assert order[i] == prefix[i] && order[j] == prefix[j];
        } else {
          assert order[i] == prefix[i];
        }
      }
    }
  }

  /** One more element taken from the part of `all` not yet visited keeps the enumeration. */
  lemma EnumerationGrows<T>(order: seq<T>, all: set<T>, rest: set<T>, x: T)
    requires Enumerates(order, all - rest) && rest <= all && x in rest
    ensures Enumerates(order + [x], all - (rest - {x}))
  {
    assert (order + [x])[..|order|] == order;
    assert Elements(order + [x]) == Elements(order) + {x};
    assert all - (rest - {x}) == (all - rest) + {x};
  }

  /** A hash map in one iteration order: its key and, for the report, its value listed too. */
  type MethodListing = seq<(string, seq<Stack>)>
  type TargetListing = seq<(string, MethodListing)>

  /** The keys of a listing, in its order. */
  function Keys<K, V>(ps: seq<(K, V)>): seq<K> {
    if ps == [] then [] else Keys(ps[..|ps| - 1]) + [ps[|ps| - 1].0]
  }

  /** Every key listed belongs to one entry of the listing. */
  lemma {:induction false} KeyIndex<K, V>(ps: seq<(K, V)>, k: K) returns (i: int)
    requires k in Elements(Keys(ps))
    ensures 0 <= i < |ps| && ps[i].0 == k
  {
    var prefix := ps[..|ps| - 1];
    if k in Elements(Keys(prefix)) {
      i := KeyIndex(prefix, k);
      assert ps[i] == prefix[i];
    } else {
      i := |ps| - 1;
    }
  }

  /** Each entry of `ml` is a method of `sigs` with its call sites in some order. */
  ghost predicate MethodEntries(ml: MethodListing, sigs: map<string, set<Stack>>) {
    forall j | 0 <= j < |ml| :: ml[j].0 in sigs && Enumerates(ml[j].1, sigs[ml[j].0])
  }

  /** `ml` is the method map `sigs` in some iteration order, each call-site set in some order. */
  ghost predicate ListsMethods(ml: MethodListing, sigs: map<string, set<Stack>>) {
    Enumerates(Keys(ml), sigs.Keys) && MethodEntries(ml, sigs)
  }

  /** Each entry of `tl` is a target of `l` with its methods listed. */
  ghost predicate TargetEntries(tl: TargetListing, l: Ledger) {
    forall i | 0 <= i < |tl| :: tl[i].0 in l && ListsMethods(tl[i].1, l[tl[i].0])
  }

  /** `tl` is the whole ledger in some iteration order. */
  ghost predicate ListsLedger(tl: TargetListing, l: Ledger) {
    Enumerates(Keys(tl), l.Keys) && TargetEntries(tl, l)
  }

  /** The call sites printed under one method, for its call sites met in `order`: the first
      always (so no method is left without a call site), later ones only when not internal. */
  function PrintedStacks(order: seq<Stack>): seq<Stack> {
    if order == [] then []
    else
      var prefix := order[..|order| - 1];
      var s := order[|order| - 1];
      PrintedStacks(prefix) + (if prefix == [] || !IsInternalCall(s, SnifferClass) then [s] else [])
  }

  /** One more call site met: printed when it is the first, or when it is not internal. */
  lemma PrintedStacksSnoc(order: seq<Stack>, s: Stack)
    ensures PrintedStacks(order + [s])
         == PrintedStacks(order) + (if order == [] || !IsInternalCall(s, SnifferClass) then [s] else [])
  {
    assert (order + [s])[..|order|] == order;
  }

  /** What is printed under a method: the first call site met, always; every later one that is not
      internal; nothing else. */
  lemma {:induction false} PrintedStacksSpec(order: seq<Stack>)
    ensures |PrintedStacks(order)| <= |order|
    ensures order != [] ==> PrintedStacks(order) != [] && PrintedStacks(order)[0] == order[0]
    ensures forall s | s in PrintedStacks(order) :: s in order
    ensures forall i | 1 <= i < |PrintedStacks(order)| :: !IsInternalCall(PrintedStacks(order)[i], SnifferClass)
    ensures forall k | 1 <= k < |order| && !IsInternalCall(order[k], SnifferClass) :: order[k] in PrintedStacks(order)
  {
    if order != [] {
      var prefix := order[..|order| - 1];
      var s := order[|order| - 1];
      PrintedStacksSpec(prefix);
      PrintedStacksSnoc(prefix, s);
      assert order == prefix + [s];
      assert forall k | 1 <= k < |prefix| :: prefix[k] == order[k];
    }
  }

  /** Each printed call site, one frame per line, then an empty line. */
  function StackBlocks(p: seq<Stack>): (bs: seq<seq<string>>)
    ensures |bs| == |p| && forall i | 0 <= i < |p| :: bs[i] == p[i] + [""]
  {
    if p == [] then [] else StackBlocks(p[..|p| - 1]) + [p[|p| - 1] + [""]]
  }

  lemma StackBlocksSnoc(p: seq<Stack>, s: Stack)
    ensures Concat(StackBlocks(p + [s])) == Concat(StackBlocks(p)) + (s + [""])
  {
    assert (p + [s])[..|p|] == p;
    ConcatSnoc(StackBlocks(p), s + [""]);
  }

  /** The lines printed for one more call site met: the call site and an empty line when it is
      printed, nothing otherwise. */
  lemma PrintStep(order: seq<Stack>, s: Stack)
    ensures Concat(StackBlocks(PrintedStacks(order + [s])))
         == Concat(StackBlocks(PrintedStacks(order)))
            + (if order == [] || !IsInternalCall(s, SnifferClass) then s + [""] else [])
  {
    PrintedStacksSnoc(order, s);
    if order == [] || !IsInternalCall(s, SnifferClass) {
      StackBlocksSnoc(PrintedStacks(order), s);
    } else {
      assert PrintedStacks(order + [s]) == PrintedStacks(order);
    }
  }

  /** An empty line, the signature indented five spaces, then the printed call sites. */
  function MethodBlock(sig: string, order: seq<Stack>): seq<string> {
    ["", "     " + sig] + Concat(StackBlocks(PrintedStacks(order)))
  }

  function MethodBlocks(ml: MethodListing): (bs: seq<seq<string>>)
    ensures |bs| == |ml| && forall j | 0 <= j < |ml| :: bs[j] == MethodBlock(ml[j].0, ml[j].1)
  {
    if ml == [] then [] else MethodBlocks(ml[..|ml| - 1]) + [MethodBlock(ml[|ml| - 1].0, ml[|ml| - 1].1)]
  }

  lemma MethodBlocksSnoc(ml: MethodListing, sig: string, order: seq<Stack>, sigs: map<string, set<Stack>>)
    ensures Concat(MethodBlocks(ml + [(sig, order)])) == Concat(MethodBlocks(ml)) + MethodBlock(sig, order)
    ensures Keys(ml + [(sig, order)]) == Keys(ml) + [sig]
    ensures MethodEntries(ml, sigs) && sig in sigs && Enumerates(order, sigs[sig]) ==>
      MethodEntries(ml + [(sig, order)], sigs)
  {
    assert (ml + [(sig, order)])[..|ml|] == ml;
    ConcatSnoc(MethodBlocks(ml), MethodBlock(sig, order));
  }

  /** "===> " and the target key, then its methods. */
  function TargetBlock(target: string, ml: MethodListing): seq<string> {
    ["===> " + target] + Concat(MethodBlocks(ml))
  }

  function TargetBlocks(tl: TargetListing): (bs: seq<seq<string>>)
    ensures |bs| == |tl| && forall i | 0 <= i < |tl| :: bs[i] == TargetBlock(tl[i].0, tl[i].1)
  {
    if tl == [] then [] else TargetBlocks(tl[..|tl| - 1]) + [TargetBlock(tl[|tl| - 1].0, tl[|tl| - 1].1)]
  }

  lemma TargetBlocksSnoc(tl: TargetListing, target: string, ml: MethodListing, l: Ledger)
    ensures Concat(TargetBlocks(tl + [(target, ml)])) == Concat(TargetBlocks(tl)) + TargetBlock(target, ml)
    ensures Keys(tl + [(target, ml)]) == Keys(tl) + [target]
    ensures TargetEntries(tl, l) && target in l && ListsMethods(ml, l[target]) ==>
      TargetEntries(tl + [(target, ml)], l)
  {
    assert (tl + [(target, ml)])[..|tl|] == tl;
    ConcatSnoc(TargetBlocks(tl), TargetBlock(target, ml));
  }

  function Header(mavenVersion: string): seq<string> {
    ["MojoSniffer output", "Maven " + mavenVersion, "", ""]
  }

  /** The whole report for the ledger met in the iteration order `tl`. */
  function ReportLines(mavenVersion: string, tl: TargetListing): (r: seq<string>)
    ensures StartsWith(r, Header(mavenVersion))
  {
    Header(mavenVersion) + Concat(TargetBlocks(tl))
  }

  /** One printed call site: `stackTrace.forEach(pw::println)`, then `pw.println()`. */
  method PrintCallSite(stack: Stack) returns (block: seq<string>)
    ensures block == stack + [""]
  {
    block := AppendLines([], stack);
    block := block + [""];
  }

  /** The innermost loop of `sessionStopped`: the call sites of one method in hash-set order,
      with the `first` flag that keeps the first call site even when it is internal. */
  method WriteStacks(stacks: set<Stack>) returns (lines: seq<string>, ghost order: seq<Stack>)
    ensures Enumerates(order, stacks)
    ensures lines == Concat(StackBlocks(PrintedStacks(order)))
  {
    lines, order := [], [];
    var first := true;
    var rest := stacks;
    while rest != {}
      invariant rest <= stacks
      invariant Enumerates(order, stacks - rest)
      invariant first <==> order == []
      invariant lines == Concat(StackBlocks(PrintedStacks(order)))
      decreases |rest|
    {
      var stack :| stack in rest;
      PrintStep(order, stack);
      EnumerationGrows(order, stacks, rest, stack);
      if first || !IsInternalCall(stack, SnifferClass) {
        var block := PrintCallSite(stack);
        lines := lines + block;
        first := false;
      }
      order := order + [stack];
      rest := rest - {stack};
    }
  }

  /** The middle loop: the methods of one target in hash-map order. */
  method WriteMethods(sigs: map<string, set<Stack>>) returns (lines: seq<string>, ghost ml: MethodListing)
    ensures ListsMethods(ml, sigs)
    ensures lines == Concat(MethodBlocks(ml))
  {
    lines, ml := [], [];
    var rest := sigs.Keys;
    while rest != {}
      invariant rest <= sigs.Keys
      invariant Enumerates(Keys(ml), sigs.Keys - rest)
      invariant MethodEntries(ml, sigs)
      invariant lines == Concat(MethodBlocks(ml))
      decreases |rest|
    {
      var sig :| sig in rest;
      var stackLines;
      ghost var order;
      stackLines, order := WriteStacks(sigs[sig]);
      lines := lines + (["", "     " + sig] + stackLines);
      MethodBlocksSnoc(ml, sig, order, sigs);
      EnumerationGrows(Keys(ml), sigs.Keys, rest, sig);
      ml := ml + [(sig, order)];
      rest := rest - {sig};
    }
  }

  /** The body of `sessionStopped` once the output is open: the header, then the targets in
      hash-map order. */
  method WriteReport(mavenVersion: string, l: Ledger) returns (lines: seq<string>, ghost tl: TargetListing)
    ensures ListsLedger(tl, l)
    ensures lines == ReportLines(mavenVersion, tl)
  {
    var body: seq<string> := [];
    tl := [];
    var rest := l.Keys;
    while rest != {}
      invariant rest <= l.Keys
      invariant Enumerates(Keys(tl), l.Keys - rest)
      invariant TargetEntries(tl, l)
      invariant body == Concat(TargetBlocks(tl))
      decreases |rest|
    {
      var target :| target in rest;
      var methodLines;
      ghost var ml;
      methodLines, ml := WriteMethods(l[target]);
      body := body + (["===> " + target] + methodLines);
      TargetBlocksSnoc(tl, target, ml, l);
      EnumerationGrows(Keys(tl), l.Keys, rest, target);
      tl := tl + [(target, ml)];
      rest := rest - {target};
    }
    lines := Header(mavenVersion) + body;
  }

  /** Under a method the report shows its first call site right after the signature, whether
      internal or not, and every call site that is not internal somewhere in its block. */
  lemma MethodBlockShowsCallSites(sig: string, order: seq<Stack>)
    ensures order != [] ==>
      StartsWith(MethodBlock(sig, order), ["", "     " + sig] + (order[0] + [""]))
    ensures forall k | 0 <= k < |order| && !IsInternalCall(order[k], SnifferClass) ::
      Contains(MethodBlock(sig, order), order[k] + [""])
  {
    var head := ["", "     " + sig];
    var p := PrintedStacks(order);
    var bs := StackBlocks(p);
    PrintedStacksSpec(order);
    assert MethodBlock(sig, order) == head + Concat(bs);
    if order != [] {
      ConcatStartsWithFirst(bs);
      var n := |order[0] + [""]|;
      assert (head + Concat(bs))[..|head| + n] == head + Concat(bs)[..n];
    }
    forall k | 0 <= k < |order| && !IsInternalCall(order[k], SnifferClass)
      ensures Contains(MethodBlock(sig, order), order[k] + [""])
    {
      assert order[k] in p;
      var idx :| 0 <= idx < |p| && p[idx] == order[k];
      ConcatContainsBlock(bs, idx);
      ContainsFrame(head, Concat(bs), [], order[k] + [""]);
      assert head + Concat(bs) + [] == MethodBlock(sig, order);
    }
  }

  /** The report holds the block of every listed target, which opens with the target's line, and
      each listed method's block lies, whole and contiguous, inside the block of its own target. */
  lemma ReportShowsListedMethod(mavenVersion: string, tl: TargetListing, i: int, j: int)
    requires 0 <= i < |tl| && 0 <= j < |tl[i].1|
    ensures Contains(ReportLines(mavenVersion, tl), TargetBlock(tl[i].0, tl[i].1))
    ensures StartsWith(TargetBlock(tl[i].0, tl[i].1), ["===> " + tl[i].0])
    ensures Contains(TargetBlock(tl[i].0, tl[i].1), MethodBlock(tl[i].1[j].0, tl[i].1[j].1))
    ensures Contains(ReportLines(mavenVersion, tl), ["===> " + tl[i].0])
    ensures Contains(ReportLines(mavenVersion, tl), MethodBlock(tl[i].1[j].0, tl[i].1[j].1))
  {
    var report := ReportLines(mavenVersion, tl);
    var target := TargetBlock(tl[i].0, tl[i].1);
    var block := MethodBlock(tl[i].1[j].0, tl[i].1[j].1);
    ConcatContainsBlock(TargetBlocks(tl), i);
    ContainsFrame(Header(mavenVersion), Concat(TargetBlocks(tl)), [], target);
    assert Header(mavenVersion) + Concat(TargetBlocks(tl)) + [] == report;
    assert target[0..1] == ["===> " + tl[i].0];
    ContainsAt(target, ["===> " + tl[i].0], 0);
    ContainsTransitive(report, target, ["===> " + tl[i].0]);
    ConcatContainsBlock(MethodBlocks(tl[i].1), j);
    ContainsFrame(["===> " + tl[i].0], Concat(MethodBlocks(tl[i].1)), [], block);
    assert ["===> " + tl[i].0] + Concat(MethodBlocks(tl[i].1)) + [] == target;
    ContainsTransitive(report, target, block);
  }

  /** Whatever iteration order the report is written in, every target of the ledger has its block
      in it, and every method of that target has its block, listing the method's call sites in
      some order, inside that target's block. */
  lemma ReportCoversLedger(mavenVersion: string, tl: TargetListing, l: Ledger, target: string, sig: string)
    requires ListsLedger(tl, l) && target in l && sig in l[target]
    ensures Contains(ReportLines(mavenVersion, tl), ["===> " + target])
    ensures exists ml: MethodListing, order: seq<Stack> ::
              && ListsMethods(ml, l[target])
              && Enumerates(order, l[target][sig])
              && Contains(ReportLines(mavenVersion, tl), TargetBlock(target, ml))
              && Contains(TargetBlock(target, ml), MethodBlock(sig, order))
  {
    var i := KeyIndex(tl, target);
    var ml := tl[i].1;
    assert ListsMethods(ml, l[target]);
    var j := KeyIndex(ml, sig);
    ReportShowsListedMethod(mavenVersion, tl, i, j);
    assert Enumerates(ml[j].1, l[target][sig]);
  }

  /** A method whose only call site is internal is still shown with it, so no method appears
      without a call site. */
  lemma LoneInternalCallSiteShown(sig: string, stack: Stack)
    ensures MethodBlock(sig, [stack]) == ["", "     " + sig] + stack + [""]
  {
    SingleCallSitePrinted(stack);
  }

  /** The lines printed under a method whose only call site is `stack`. */
  lemma SingleCallSitePrinted(stack: Stack)
    ensures Concat(StackBlocks(PrintedStacks([stack]))) == stack + [""]
  {
    assert [stack][..0] == [];
    assert PrintedStacks([stack]) == [stack];
    assert StackBlocks([stack]) == [stack + [""]];
    assert [stack + [""]][..0] == [];
  }

  /** A later internal call site adds nothing; a later surface one is shown after the first. */
  lemma LaterCallSites(sig: string, first: Stack, later: Stack)
    ensures IsInternalCall(later, SnifferClass) ==> MethodBlock(sig, [first, later]) == MethodBlock(sig, [first])
    ensures !IsInternalCall(later, SnifferClass) ==>
      MethodBlock(sig, [first, later]) == MethodBlock(sig, [first]) + later + [""]
  {
    var head := ["", "     " + sig];
    var lines := Concat(StackBlocks(PrintedStacks([first])));
    PrintStep([first], later);
    assert [first] + [later] == [first, later];
    if IsInternalCall(later, SnifferClass) {
      assert Concat(StackBlocks(PrintedStacks([first, later]))) == lines;
    } else {
      assert Concat(StackBlocks(PrintedStacks([first, later]))) == lines + (later + [""]);
      assert head + (lines + (later + [""])) == head + lines + later + [""];
    }
  }
}
