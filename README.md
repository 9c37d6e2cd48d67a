# mojosniffer, modelled in Dafny

mojosniffer is a Maven core extension that puts Guice proxies around deprecated and
"maven-compat" Maven types and records every call made into them, with the call site that made
it. This project models the decision rules and the bookkeeping of the two generations of its
`MojoSniffer` component and proves what they promise.

- The current component (`eu.maveniverse.maven.extensions.mojosniffer.MojoSniffer`):
  - the class matcher: Maven namespaces, `final`, `@Deprecated` on the type or on a Maven ancestor, maven-compat jars;
  - the call ledger: target, then method, then the set of distinct call sites;
  - the session guard;
  - the report written when the session stops.
- The older component (`org.cstamas.maven.components.mojosniffer.MojoSniffer`):
  - its matchers: maven-compat classes and `ArtifactRepository` implementations;
  - its flat ledger, which writes each new surface call site to the output as soon as it is seen.

Modules, one per file:

- `Common` (`common.dfy`): `Option`, prefix and slice containment on sequences, flattening of line blocks, and the `println` loop.
- `TypeModel` (`types.dfy`): the type metadata that reflection would give (`TypeInfo`, looked up in a `Hierarchy` map), and the maven-compat test the two components share.
- `Classifier` (`classifier.dfy`): the current matcher and the unit test's hierarchy.
- `CompatClassifier` (`compat_classifier.dfy`): the older matchers.
- `CallSites` (`call_sites.dfy`): call sites, skipping the interception frames, internal calls.
- `Ledger` (`ledger.dfy`): the current ledger as a value and its properties.
- `Report` (`report.dfy`): the report as a function of the ledger and an iteration order, and the imperative loops that write it.
- `Sniffer` (`sniffer.dfy`): the current component as a class: `Log`, `Intercept`, the session callbacks.
- `CompatSniffer` (`compat_sniffer.dfy`): the older component, as a state function and as a class.

A type hierarchy is acyclic in the JVM. Here every `TypeInfo` carries a `depth`, and
`WellFormed` requires every parent to be known and to have a smaller depth. The recursive searches
terminate on that measure.

The report walks hash maps and hash sets, whose iteration order the code does not fix. The writing
methods pick the next key with `:|` and hand back the order they used as a ghost listing. Their
contract says the output equals `ReportLines` of that listing, and the lemmas about the report hold
for every listing of the ledger.

## Model

| member | source | states |
|---|---|---|
| Classifier.IsClassOfInterest | src/main/java/eu/maveniverse/maven/extensions/mojosniffer/MojoSniffer.java:141-148 | a type is of interest iff its package is not null and its name starts with "org.apache.maven" or "org.codehaus" |
| Classifier.IsDeprecatedClass | src/main/java/eu/maveniverse/maven/extensions/mojosniffer/MojoSniffer.java:150-161 | the type's own `@Deprecated`, whatever its package, or an ancestor found by the ancestor search from each interface in order, then from the superclass |
| Classifier.IsDeprecatedClassAncestor | src/main/java/eu/maveniverse/maven/extensions/mojosniffer/MojoSniffer.java:163-180 | null is not deprecated; a type outside the Maven namespaces is not and ends the search there; otherwise its own `@Deprecated`, then its interfaces in order, then its superclass |
| Classifier.MatchClass | src/main/java/eu/maveniverse/maven/extensions/mojosniffer/MojoSniffer.java:126-139 | false outside the Maven namespaces and for every `final` type (even a deprecated one); true for a deprecated non-final type of interest; otherwise true exactly for a maven-compat type that is neither an interface nor an enum |
| Classifier.AncestorSearchFindsChains | src/main/java/eu/maveniverse/maven/extensions/mojosniffer/MojoSniffer.java:163-180 | the ancestor search answers true iff some chain of parents, every one of them of interest, leads from the type to a deprecated type |
| Classifier.ChainOf | src/main/java/eu/maveniverse/maven/extensions/mojosniffer/MojoSniffer.java:163-180 | when the search answers true it returns a deprecation chain that starts at the type |
| Classifier.ChainIsFound | src/main/java/eu/maveniverse/maven/extensions/mojosniffer/MojoSniffer.java:163-180 | the search finds every deprecation chain from its first type |
| Classifier.DeprecatedClassByChains | src/main/java/eu/maveniverse/maven/extensions/mojosniffer/MojoSniffer.java:150-161 | `isDeprecatedClass` holds iff the type is `@Deprecated` itself (whatever its package), or a deprecation chain starts at one of its direct interfaces or its superclass |
| Classifier.MatchClassByChains | src/main/java/eu/maveniverse/maven/extensions/mojosniffer/MojoSniffer.java:126-180 | `matchClass` without the search: non-final, of interest, and deprecated itself, or deprecated through a chain of Maven ancestors, or a concrete maven-compat class |
| Classifier.InterestCoversSubpackages | src/main/java/eu/maveniverse/maven/extensions/mojosniffer/MojoSniffer.java:141-148 | a sub-package of a package of interest is of interest (the test is a plain prefix test) |
| Classifier.TestHierarchy | src/test/java/eu/maveniverse/maven/extensions/mojosniffer/MojoSnifferTest.java:48-60 | the unit test's types form a well-formed hierarchy |
| Classifier.DeprecationTestInterfaces | src/test/java/eu/maveniverse/maven/extensions/mojosniffer/MojoSnifferTest.java:36-42 | IB is deprecated; IA and IC are not |
| Classifier.DeprecationTestClasses | src/test/java/eu/maveniverse/maven/extensions/mojosniffer/MojoSnifferTest.java:36-46 | CC is deprecated; the test class, CA and CB are not, because the deprecated IB is outside the Maven namespaces |
| TypeModel.IsMavenCompat | src/main/java/eu/maveniverse/maven/extensions/mojosniffer/MojoSniffer.java:182-186 | the class loader is not null, it resolves the name with slashes plus ".class", and the URL path contains "/maven-compat-" |
| TypeModel.SlashedName | src/main/java/eu/maveniverse/maven/extensions/mojosniffer/MojoSniffer.java:184 | same length as the name, every '.' replaced by '/' and nothing else changed |
| TypeModel.ResourceName | src/main/java/eu/maveniverse/maven/extensions/mojosniffer/MojoSniffer.java:184 | the slashed name followed by ".class", with no '.' before the suffix |
| TypeModel.MavenCompatExamples | src/test/java/eu/maveniverse/maven/extensions/mojosniffer/MojoSnifferTest.java:30-34 | a class whose loader resolves it inside a maven-compat jar, as `ArtifactResolver`'s does, is a maven-compat class; the test class `MojoSnifferTest`, resolved in the test output directory, is not; a class without a loader never is |
| CompatClassifier.IsAssignableTo | src/main/java/org/cstamas/maven/components/mojosniffer/MojoSniffer.java:141 | `isAssignableFrom` over the type records: the type itself, or through any interface or the superclass |
| CompatClassifier.MatchClass | src/main/java/org/cstamas/maven/components/mojosniffer/MojoSniffer.java:139-144 | false for interfaces and enums; otherwise true iff the class is maven-compat or assignable to `ArtifactRepository` |
| CompatClassifier.AssignableThroughParent | src/main/java/org/cstamas/maven/components/mojosniffer/MojoSniffer.java:141 | a type is assignable to whatever one of its parents is assignable to |
| CompatClassifier.AssignableTransitive | src/main/java/org/cstamas/maven/components/mojosniffer/MojoSniffer.java:141 | assignability is transitive, so subclasses of `ArtifactRepository` implementations match as well |
| CompatClassifier.MatchMethod | src/main/java/org/cstamas/maven/components/mojosniffer/MojoSniffer.java:146-148 | a method is intercepted iff its declaring class is a maven-compat class |
| CompatClassifier.MatchMethodOnCompatClass | src/main/java/org/cstamas/maven/components/mojosniffer/MojoSniffer.java:139-154 | a method that `matchMethod` accepts is declared on a class that `matchClass` accepts, unless that class is an interface or an enum |
| CallSites.Skip | src/main/java/eu/maveniverse/maven/extensions/mojosniffer/MojoSniffer.java:111 | drops the first n lines, all of them when there are fewer; the rest is kept in order |
| CallSites.SkipSplits | src/main/java/eu/maveniverse/maven/extensions/mojosniffer/MojoSniffer.java:109-111 | the dropped lines followed by the call site give back the whole trace |
| CallSites.IsInternalCall | src/main/java/eu/maveniverse/maven/extensions/mojosniffer/MojoSniffer.java:117-119 | some line of the call site contains the sniffer class's name |
| CallSites.InternalCallOfParts | src/main/java/eu/maveniverse/maven/extensions/mojosniffer/MojoSniffer.java:117-119 | a trace is internal iff one of its parts is |
| Common.AppendLines | src/main/java/org/cstamas/maven/components/mojosniffer/MojoSniffer.java:115 | writing lines one at a time appends them, in order, after what was written before |
| Ledger.Record | src/main/java/eu/maveniverse/maven/extensions/mojosniffer/MojoSniffer.java:94-112 | disabled or a null receiver leaves the ledger as it is; otherwise the call site, minus its first 7 lines, joins the set of its target and method |
| Ledger.InsertStack | src/main/java/eu/maveniverse/maven/extensions/mojosniffer/MojoSniffer.java:104-111 | both keys exist afterwards; the method's set gains the call site; every other target and every other method is unchanged |
| Ledger.InsertIdempotent | src/main/java/eu/maveniverse/maven/extensions/mojosniffer/MojoSniffer.java:106-111 | inserting the same call site twice is the same as inserting it once |
| Ledger.InsertCardinality | src/main/java/eu/maveniverse/maven/extensions/mojosniffer/MojoSniffer.java:106-111 | the set grows by one exactly when the call site is new, and keeps its size otherwise |
| Ledger.DisabledRecordsNothing | src/main/java/eu/maveniverse/maven/extensions/mojosniffer/MojoSniffer.java:94-97 | a disabled sniffer leaves the ledger as it was, whatever calls it sees |
| Ledger.LedgerHoldsObservedCalls | src/main/java/eu/maveniverse/maven/extensions/mojosniffer/MojoSniffer.java:94-112 | from an empty ledger, a call site is filed under a target and a method iff some call with a non-null receiver produced it there, after skipping 7 lines |
| Ledger.DeduplicatedCallSites | src/main/java/eu/maveniverse/maven/extensions/mojosniffer/MojoSniffer.java:104-111 | two calls with the same call site give one entry; a third with a different call site gives two |
| Report.EnumerationIsDistinct | src/main/java/eu/maveniverse/maven/extensions/mojosniffer/MojoSniffer.java:239-247 | an iteration over a set or a map's keys never visits the same element twice |
| Report.EnumerationGrows | src/main/java/eu/maveniverse/maven/extensions/mojosniffer/MojoSniffer.java:239-247 | taking one more element not yet visited extends the iteration by exactly that element |
| Report.KeyIndex | src/main/java/eu/maveniverse/maven/extensions/mojosniffer/MojoSniffer.java:239-243 | every key an iteration visits is the key of one entry of the listing |
| Report.PrintedStacks | src/main/java/eu/maveniverse/maven/extensions/mojosniffer/MojoSniffer.java:246-253 | the call sites the loop with the `first` flag prints, in iteration order: the first one met, then every later one that is not internal |
| Report.PrintedStacksSpec | src/main/java/eu/maveniverse/maven/extensions/mojosniffer/MojoSniffer.java:246-253 | the first call site met is always printed; every later one is printed iff it is not internal; nothing else is printed |
| Report.ReportLines | src/main/java/eu/maveniverse/maven/extensions/mojosniffer/MojoSniffer.java:235-238 | the report opens with "MojoSniffer output", "Maven " and the version, and two empty lines |
| Report.PrintCallSite | src/main/java/eu/maveniverse/maven/extensions/mojosniffer/MojoSniffer.java:249-250 | one printed call site is every frame, one per line, through the `println` loop, then an empty line |
| Report.WriteStacks | src/main/java/eu/maveniverse/maven/extensions/mojosniffer/MojoSniffer.java:246-253 | the loop with the `first` flag visits every call site once and writes exactly the printed call sites, each followed by an empty line |
| Report.WriteMethods | src/main/java/eu/maveniverse/maven/extensions/mojosniffer/MojoSniffer.java:242-254 | visits every method once and writes, per method, an empty line, the signature after five spaces, then its call sites |
| Report.WriteReport | src/main/java/eu/maveniverse/maven/extensions/mojosniffer/MojoSniffer.java:235-255 | visits every target once and writes the header, then per target "===> " and the key followed by its methods |
| Report.MethodBlockShowsCallSites | src/main/java/eu/maveniverse/maven/extensions/mojosniffer/MojoSniffer.java:244-253 | the first call site follows the signature directly, internal or not; every call site that is not internal appears, whole and followed by an empty line |
| Report.ReportShowsListedMethod | src/main/java/eu/maveniverse/maven/extensions/mojosniffer/MojoSniffer.java:239-254 | the report contains each listed target's block, which opens with "===> " and the target, and each method's block lies, contiguous, inside the block of its own target |
| Report.ReportCoversLedger | src/main/java/eu/maveniverse/maven/extensions/mojosniffer/MojoSniffer.java:239-254 | for every iteration order, every target of the ledger has its block in the report, and every method of that target has its block, listing the method's call sites in some order, inside that target's block |
| Report.LoneInternalCallSiteShown | src/main/java/eu/maveniverse/maven/extensions/mojosniffer/MojoSniffer.java:246 | a method whose only call site is internal is still shown with that call site |
| Report.LaterCallSites | src/main/java/eu/maveniverse/maven/extensions/mojosniffer/MojoSniffer.java:248-252 | a later internal call site adds nothing; a later surface one is appended with its empty line |
| Sniffer.Step | src/main/java/eu/maveniverse/maven/extensions/mojosniffer/MojoSniffer.java:219-263 | a start is accepted only when idle, a stop only when running; an accepted start leaves the sniffer running, an accepted stop leaves it idle |
| Sniffer.ReplayAcceptsAlternation | src/main/java/eu/maveniverse/maven/extensions/mojosniffer/MojoSniffer.java:219-263 | a series of callbacks is accepted iff starts and stops alternate, and then the final flag follows the parity of their number |
| Sniffer.MojoSniffer.constructor | src/main/java/eu/maveniverse/maven/extensions/mojosniffer/MojoSniffer.java:83-87 | flags from the properties, output path "sniffer.log" by default, empty ledger, no session |
| Sniffer.MojoSniffer.Log | src/main/java/eu/maveniverse/maven/extensions/mojosniffer/MojoSniffer.java:94-112 | the in-place update of the nested maps is `Record` of the old ledger, whatever the session flag |
| Sniffer.MojoSniffer.Intercept | src/main/java/eu/maveniverse/maven/extensions/mojosniffer/MojoSniffer.java:121-124 | records the call, then returns what the intercepted method returned |
| Sniffer.MojoSniffer.SessionStarted | src/main/java/eu/maveniverse/maven/extensions/mojosniffer/MojoSniffer.java:219-228 | `IllegalStateException` with "Not supporting overlapping session!" when a session runs; the sniffer runs afterwards |
| Sniffer.MojoSniffer.SessionStopped | src/main/java/eu/maveniverse/maven/extensions/mojosniffer/MojoSniffer.java:230-263 | `IllegalStateException` when idle; otherwise idle afterwards, nothing written when disabled or when the file cannot be opened, else the report of the whole ledger; the ledger is kept |
| Sniffer.ObservedCallsReported | src/main/java/eu/maveniverse/maven/extensions/mojosniffer/MojoSniffer.java:94-255 | after an enabled sniffer saw a call, the ledger holds its target and method, and the report shows the call under them: it contains the target's block, built from exactly that target's methods and their call sites, and that block holds the method's block, which opens with the signature and holds the call site, frame by frame, unless it is internal |
| CompatSniffer.Emission | src/main/java/org/cstamas/maven/components/mojosniffer/MojoSniffer.java:113-118 | with the stack-trace flag, the signature and then every frame; without it, one line "Using maven-compat deprecated method: " and the signature |
| CompatSniffer.EmissionModes | src/main/java/org/cstamas/maven/components/mojosniffer/MojoSniffer.java:113-118 | stack-trace mode writes the signature and then every frame; compact mode writes exactly one line, "Using maven-compat deprecated method: " and the signature |
| CompatSniffer.LogStep | src/main/java/org/cstamas/maven/components/mojosniffer/MojoSniffer.java:100-125 | disabled: no change; enabled: the method's set gains the call site after skipping 6 lines, other methods are unchanged, the output only grows |
| CompatSniffer.DisabledIsInert | src/main/java/org/cstamas/maven/components/mojosniffer/MojoSniffer.java:100-103 | a disabled sniffer neither records nor writes, whatever calls it sees |
| CompatSniffer.RepeatIsSilent | src/main/java/org/cstamas/maven/components/mojosniffer/MojoSniffer.java:105-110 | a call site already recorded writes nothing; repeating a call changes nothing |
| CompatSniffer.InternalNeverWritten | src/main/java/org/cstamas/maven/components/mojosniffer/MojoSniffer.java:110-111 | an internal call site is recorded and never written |
| CompatSniffer.LedgerFromFresh | src/main/java/org/cstamas/maven/components/mojosniffer/MojoSniffer.java:104-110 | from a fresh sniffer, a call site is recorded under a method iff some call produced it there |
| CompatSniffer.FirstSightingOfLast | src/main/java/org/cstamas/maven/components/mojosniffer/MojoSniffer.java:110 | `add` succeeds exactly on the first sighting of a call site for its method |
| CompatSniffer.OutputFromFresh | src/main/java/org/cstamas/maven/components/mojosniffer/MojoSniffer.java:104-124 | from a fresh sniffer, the output is, in call order, the emission of each first sighting of a surface call site and nothing else |
| CompatSniffer.SurfaceCallWritten | src/main/java/org/cstamas/maven/components/mojosniffer/MojoSniffer.java:110-115 | in stack-trace mode, every surface call site seen appears in the output right after its signature |
| CompatSniffer.CompatMojoSniffer.constructor | src/main/java/org/cstamas/maven/components/mojosniffer/MojoSniffer.java:73-89 | flags from the properties, empty ledger, nothing written |
| CompatSniffer.CompatMojoSniffer.Log | src/main/java/org/cstamas/maven/components/mojosniffer/MojoSniffer.java:100-125 | the in-place update of the set and the writes are `LogStep` of the old state |
| CompatSniffer.CompatMojoSniffer.Intercept | src/main/java/org/cstamas/maven/components/mojosniffer/MojoSniffer.java:134-137 | records the call, then returns what the intercepted method returned |
| CompatSniffer.CompatMojoSniffer.SessionStarted | src/main/java/org/cstamas/maven/components/mojosniffer/MojoSniffer.java:183-185 | changes no state |
| CompatSniffer.CompatMojoSniffer.SessionStopped | src/main/java/org/cstamas/maven/components/mojosniffer/MojoSniffer.java:187-189 | changes no state, and the ledger and the output are kept |

## Behaviour worth noting

- CB is not deprecated although it implements the deprecated interface IB. IB lies outside the Maven namespaces, so the ancestor search stops there. `Classifier.DeprecationTestClasses` states this.
- `log` never reads `sessionRuns`, so calls are recorded outside a session too.
- `sessionStopped` keeps `invocations`: a later session's report still holds the earlier calls.
- The current `log` returns nothing. Only the older one uses the result of `add`, to decide whether to write.
- The current component reads `mojosniffer.stacktrace` into a field and never uses it. The model keeps the field, and nothing depends on it.

## Left out

- Reflection is replaced by a `TypeInfo` record per type: packages, modifiers, annotations, interfaces, the superclass, class loaders and `getResource`. The record's `depth` field exists only as the termination measure.
- `ArtifactRepository.class.isAssignableFrom` is modelled by `IsAssignableTo` over the same records.
- Guice and AOP glue is left out because it only forwards to the modelled matchers and interceptor: `getClassMatcher`, `getMethodMatcher`, `getMethodInterceptor`, `inject` and `MethodInvocation.proceed()`. The result of `proceed()` is an argument of `Intercept`, and an exception it throws is not modelled.
- The current component's `matchMethod` always answers true. The model has no member for it, since it constrains nothing.
- Proxy target naming (`getSuperclass().getName()` and the "(CL …)" suffix) is not modelled: the target key is part of the input.
- Stack capture (`new Throwable().printStackTrace` and the split on "\n") is not modelled: the raw frame lines are part of the input.
- System properties are constructor arguments.
- The current component's output path is recorded but no file is opened. Writes become a sequence of lines.
  - The current component's failure to open the file becomes the `openFails` argument: nothing is written and the status is `WriteFailed`.
  - The older component does not keep its output path at all: its `MojoSniffer.file` property and the "target/sniffer.log" default are not modelled, and its output is one sequence of lines whatever the file would be.
  - The older component's fallback to stdout, `Files.createDirectories`, `checkError` and its stderr message are left out. So is its writer existing only when enabled; nothing is written when disabled anyway.
- Concurrency becomes sequential code: `ConcurrentHashMap`, `AtomicBoolean.compareAndSet` and `synchronized (writer)`. The compare-and-set is a plain test and assignment.
- Hash-map and hash-set iteration order is a nondeterministic choice, exposed as a ghost listing. The report is proved for every possible order; which order the JVM would pick is not modelled.
- SLF4J logging is left out. It is the only thing the older `sessionStarted` and `sessionStopped` do.
- `RuntimeInformation.getMavenVersion()` is an argument of `SessionStopped`.
- `MojoSnifferLifecycleParticipant` of the older generation is not part of this model: it only forwards the two session callbacks.
- Report.PrintedStacksSpec: states which call sites are printed, not that they keep the iteration order. `Report.WriteStacks` pins the order down by tying the output to `PrintedStacks` of the order it used.
