/** The class matcher of the current sniffer (eu.maveniverse...MojoSniffer): which Maven types get
    a proxy whose calls are recorded. */
module Classifier {
  import opened Common
  import opened TypeModel

  /** `isClassOfInterest`: the type lives in one of the two Maven namespaces. */
  predicate IsClassOfInterest(c: TypeInfo) {
    c.pkg.Some? && (StartsWith(c.pkg.value, "org.apache.maven") || StartsWith(c.pkg.value, "org.codehaus"))
  }

  /** `isDeprecatedClassAncestor`: `t` (null when None) is of interest and is deprecated, itself
      or through an ancestor reached by this same search. */
  predicate IsDeprecatedClassAncestor(h: Hierarchy, t: Option<TypeId>)
    requires WellFormed(h) && (t.Some? ==> t.value in h)
    decreases if t.Some? then h[t.value].depth else 0, 1
  {
    if t.None? then false
    else if !IsClassOfInterest(h[t.value]) then false
    else if h[t.value].deprecated then true
    else DeprecatedViaParents(h, h[t.value])
  }

  /** The part shared by `isDeprecatedClass` and `isDeprecatedClassAncestor`: the loop over the
      interfaces, which returns early on the first hit, then the superclass. */
  predicate DeprecatedViaParents(h: Hierarchy, c: TypeInfo)
    requires WellFormed(h) && ParentsBelow(h, c)
    decreases c.depth, 0
  {
    assert forall i | 0 <= i < |c.ifaces| :: IsParent(c, c.ifaces[i]);
    || (exists i | 0 <= i < |c.ifaces| :: IsDeprecatedClassAncestor(h, Some(c.ifaces[i])))
    || (c.superclass.Some? && IsDeprecatedClassAncestor(h, c.superclass))
  }

  /** `isDeprecatedClass`: the type's own `@Deprecated` counts whatever its package; ancestors
      count only through the interest-filtered search. */
  predicate IsDeprecatedClass(h: Hierarchy, t: TypeId)
    requires WellFormed(h) && t in h
  {
    h[t].deprecated || DeprecatedViaParents(h, h[t])
  }

  /** `matchClass`: rules tried in order, the first that applies decides. */
  predicate MatchClass(h: Hierarchy, t: TypeId)
    requires WellFormed(h) && t in h
    ensures !IsClassOfInterest(h[t]) ==> !MatchClass(h, t)
    ensures IsClassOfInterest(h[t]) && h[t].isFinal ==> !MatchClass(h, t)
    ensures IsClassOfInterest(h[t]) && !h[t].isFinal && IsDeprecatedClass(h, t) ==> MatchClass(h, t)
    ensures IsClassOfInterest(h[t]) && !h[t].isFinal && !IsDeprecatedClass(h, t) ==>
      (MatchClass(h, t) <==> !h[t].isInterface && !h[t].isEnum && IsMavenCompat(h[t]))
  {
    var c := h[t];
    if IsClassOfInterest(c) then
      if c.isFinal then false
      else if IsDeprecatedClass(h, t) then true
      else if !c.isInterface && !c.isEnum then IsMavenCompat(c)
      else false
    else false
  }

  /** Any sub-package of a package of interest is of interest too. */
  lemma InterestCoversSubpackages(c: TypeInfo, sub: string)
    requires IsClassOfInterest(c)
    ensures IsClassOfInterest(c.(pkg := Some(c.pkg.value + "." + sub)))
  {
    var p := c.pkg.value;
    assert p + "." + sub == p + ("." + sub);
    if StartsWith(p, "org.apache.maven") {
      StartsWithExtend(p, "org.apache.maven", "." + sub);
    } else {
      StartsWithExtend(p, "org.codehaus", "." + sub);
    }
  }

  /** A deprecation chain: each type a parent of the one before, every one of interest, the last
      one deprecated. This is what the recursive search looks for. */
  ghost predicate DeprecationChain(h: Hierarchy, path: seq<TypeId>) {
    && |path| > 0
    && (forall i | 0 <= i < |path| :: path[i] in h && IsClassOfInterest(h[path[i]]))
    && (forall i | 0 <= i < |path| - 1 :: path[i] in h && IsParent(h[path[i]], path[i + 1]))
    && path[|path| - 1] in h && h[path[|path| - 1]].deprecated
  }

  /** The recursive ancestor search answers true exactly when a deprecation chain starts at `t`:
      the search neither misses a chain nor leaves the Maven namespaces. */
  lemma {:induction false} AncestorSearchFindsChains(h: Hierarchy, t: TypeId)
    requires WellFormed(h) && t in h
    ensures IsDeprecatedClassAncestor(h, Some(t)) <==> exists path :: DeprecationChain(h, path) && path[0] == t
    decreases h[t].depth
  {
    if IsDeprecatedClassAncestor(h, Some(t)) {
      var path := ChainOf(h, t);
    }
    if exists path :: DeprecationChain(h, path) && path[0] == t {
      var path :| DeprecationChain(h, path) && path[0] == t;
      ChainIsFound(h, path);
    }
  }

  /** A chain from `t` when the search answers true (the witness the search implicitly finds). */
  lemma {:induction false} ChainOf(h: Hierarchy, t: TypeId) returns (path: seq<TypeId>)
    requires WellFormed(h) && t in h && IsDeprecatedClassAncestor(h, Some(t))
    ensures DeprecationChain(h, path) && path[0] == t
    decreases h[t].depth
  {
    var c := h[t];
    if c.deprecated {
      path := [t];
    } else {
      var p := ParentHit(h, c);
      var rest := ChainOf(h, p);
      path := [t] + rest;
      forall i | 0 <= i < |path| - 1
        ensures path[i] in h && IsParent(h[path[i]], path[i + 1])
      {
        if i > 0 { assert path[i] == rest[i - 1] && path[i + 1] == rest[i]; }
      }
    }
  }

  /** The parent through which `DeprecatedViaParents` answered true. */
  lemma ParentHit(h: Hierarchy, c: TypeInfo) returns (p: TypeId)
    requires WellFormed(h) && ParentsBelow(h, c) && DeprecatedViaParents(h, c)
    ensures IsParent(c, p) && p in h && h[p].depth < c.depth && IsDeprecatedClassAncestor(h, Some(p))
  {
    if exists i | 0 <= i < |c.ifaces| :: IsDeprecatedClassAncestor(h, Some(c.ifaces[i])) {
      var i :| 0 <= i < |c.ifaces| && IsDeprecatedClassAncestor(h, Some(c.ifaces[i]));
      p := c.ifaces[i];
    } else {
      p := c.superclass.value;
    }
  }

  /** Every chain is found by the search started at its first type. */
  lemma {:induction false} ChainIsFound(h: Hierarchy, path: seq<TypeId>)
    requires WellFormed(h) && DeprecationChain(h, path)
    ensures IsDeprecatedClassAncestor(h, Some(path[0]))
    decreases |path|
  {
    var c := h[path[0]];
    if |path| > 1 && !c.deprecated {
      var rest := path[1..];
      assert DeprecationChain(h, rest) by {
        forall i | 0 <= i < |rest| - 1
          ensures rest[i] in h && IsParent(h[rest[i]], rest[i + 1])
        {
          assert rest[i] == path[i + 1] && rest[i + 1] == path[i + 2];
        }
      }
      ChainIsFound(h, rest);
      ParentFound(h, c, rest[0]);
    }
  }

  /** If one parent is found deprecated, the parents search answers true. */
  lemma ParentFound(h: Hierarchy, c: TypeInfo, p: TypeId)
    requires WellFormed(h) && ParentsBelow(h, c) && IsParent(c, p) && p in h
    requires IsDeprecatedClassAncestor(h, Some(p))
    ensures DeprecatedViaParents(h, c)
  {
    if p in c.ifaces {
      var i :| 0 <= i < |c.ifaces| && c.ifaces[i] == p;
      assert IsDeprecatedClassAncestor(h, Some(c.ifaces[i]));
    }
  }

  /** `isDeprecatedClass` in terms of chains: the type is deprecated itself (in any package),
      or a deprecation chain starts at one of its direct parents. */
  lemma DeprecatedClassByChains(h: Hierarchy, t: TypeId)
    requires WellFormed(h) && t in h
    ensures IsDeprecatedClass(h, t) <==>
      h[t].deprecated || exists path :: DeprecationChain(h, path) && IsParent(h[t], path[0])
  {
    var c := h[t];
    if DeprecatedViaParents(h, c) {
      var p := ParentHit(h, c);
      AncestorSearchFindsChains(h, p);
    }
    if exists path :: DeprecationChain(h, path) && IsParent(c, path[0]) {
      var path :| DeprecationChain(h, path) && IsParent(c, path[0]);
      ChainIsFound(h, path);
      ParentFound(h, c, path[0]);
    }
  }

  /** `matchClass` stated without the search: a non-final type of interest that is deprecated,
      directly or through a chain of Maven ancestors, or a maven-compat class that is neither an
      interface nor an enum. */
  lemma MatchClassByChains(h: Hierarchy, t: TypeId)
    requires WellFormed(h) && t in h
    ensures MatchClass(h, t) <==>
      && IsClassOfInterest(h[t]) && !h[t].isFinal
      && (|| h[t].deprecated
          || (exists path :: DeprecationChain(h, path) && IsParent(h[t], path[0]))
          || (!h[t].isInterface && !h[t].isEnum && IsMavenCompat(h[t])))
  {
    DeprecatedClassByChains(h, t);
  }

  /** The hierarchy of the unit test. IA, IB (deprecated) and IC are interfaces; CA implements IA;
      CB extends CA and implements IB; CC (deprecated) implements IC. All of them, and the test
      class itself, live in the sniffer's own package, which is outside the Maven namespaces. */
  function TestHierarchy(): (h: Hierarchy)
    ensures WellFormed(h)
  {
    map[
      "Object" := TestType("java.lang.Object", "java.lang", false, false, [], None, 0),
      "MojoSnifferTest" := TestType(TestClassName, TestPackage, false, false, [], Some("Object"), 1),
      "IA" := TestType(TestClassName + "$IA", TestPackage, false, true, [], None, 0),
      "IB" := TestType(TestClassName + "$IB", TestPackage, true, true, [], None, 0),
      "IC" := TestType(TestClassName + "$IC", TestPackage, false, true, [], None, 0),
      "CA" := TestType(TestClassName + "$CA", TestPackage, false, false, ["IA"], Some("Object"), 1),
      "CB" := TestType(TestClassName + "$CB", TestPackage, false, false, ["IB"], Some("CA"), 2),
      "CC" := TestType(TestClassName + "$CC", TestPackage, true, false, ["IC"], Some("Object"), 1)
    ]
  }

  /** A type of the test: named `name` (nested types carry the test class's name and '$'), never
      final, never an enum. */
  function TestType(name: string, pkg: string, deprecated: bool, isInterface: bool, ifaces: seq<TypeId>,
                    superclass: Option<TypeId>, depth: nat): TypeInfo
  {
    TypeInfo(name, Some(pkg), false, isInterface, false, deprecated, ifaces, superclass, None, depth)
  }

  /** A package whose name does not start with 'o' is in neither Maven namespace. */
  lemma OutsideNamespaces(c: TypeInfo)
    requires c.pkg.Some? && c.pkg.value != [] && c.pkg.value[0] != 'o'
    ensures !IsClassOfInterest(c)
  {
  }

  /** The unit test's expectations for the interfaces: only IB, which carries `@Deprecated`
      itself, is deprecated; its package does not matter for its own flag. */
  lemma DeprecationTestInterfaces()
    ensures !IsDeprecatedClass(TestHierarchy(), "IA")
    ensures IsDeprecatedClass(TestHierarchy(), "IB")
    ensures !IsDeprecatedClass(TestHierarchy(), "IC")
  {
    var h := TestHierarchy();
    assert h["IA"].ifaces == [] && h["IA"].superclass == None;
    assert h["IC"].ifaces == [] && h["IC"].superclass == None;
  }

  /** The unit test's expectations for the classes: CC, deprecated itself, is; CA and the test
      class are not; CB is not either, because the deprecated IB it implements is outside the
      Maven namespaces and the search does not follow it. */
  lemma DeprecationTestClasses()
    ensures !IsDeprecatedClass(TestHierarchy(), "MojoSnifferTest")
    ensures !IsDeprecatedClass(TestHierarchy(), "CA")
    ensures !IsDeprecatedClass(TestHierarchy(), "CB")
    ensures IsDeprecatedClass(TestHierarchy(), "CC")
  {
    var h := TestHierarchy();
    OutsideNamespaces(h["Object"]);
    OutsideNamespaces(h["IA"]);
    OutsideNamespaces(h["IB"]);
    OutsideNamespaces(h["CA"]);
    assert !IsDeprecatedClassAncestor(h, Some("Object")) && !IsDeprecatedClassAncestor(h, Some("IA"));
    assert h["CA"].ifaces == ["IA"] && h["CA"].superclass == Some("Object");
    assert !IsDeprecatedClassAncestor(h, Some("IB")) && !IsDeprecatedClassAncestor(h, Some("CA"));
    assert h["CB"].ifaces == ["IB"] && h["CB"].superclass == Some("CA");
  }
}
