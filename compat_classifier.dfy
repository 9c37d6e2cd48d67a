/** The class and method matchers of the older sniffer (org.cstamas...MojoSniffer): every concrete
    maven-compat class, and every implementation of `ArtifactRepository`, gets a proxy, and only
    methods declared on a maven-compat class are intercepted. */
module CompatClassifier {
  import opened Common
  import opened TypeModel

  /** A reflected method: the class that declares it and its generic signature. */
  datatype MethodInfo = MethodInfo(declaringClass: TypeId, signature: string)

  /** `sup.isAssignableFrom(t)`: `t` is `sup` or inherits from it through any interface or
      superclass, whatever the packages on the way. Unlike Java, an interface is not assignable to
      `java.lang.Object` here, since interfaces have no superclass; the only `sup` used, the
      `ArtifactRepository` interface, is not affected. */
  predicate IsAssignableTo(h: Hierarchy, t: TypeId, sup: TypeId)
    requires WellFormed(h) && t in h
    decreases h[t].depth
  {
    var c := h[t];
    assert forall i | 0 <= i < |c.ifaces| :: IsParent(c, c.ifaces[i]);
    || t == sup
    || (exists i | 0 <= i < |c.ifaces| :: IsAssignableTo(h, c.ifaces[i], sup))
    || (c.superclass.Some? && IsAssignableTo(h, c.superclass.value, sup))
  }

  /** `matchClass`: never an interface or an enum; otherwise a maven-compat class or an
      implementation of `artifactRepository` (the `ArtifactRepository` type). Namespaces, `final`
      and deprecation play no part. */
  predicate MatchClass(h: Hierarchy, t: TypeId, artifactRepository: TypeId)
    requires WellFormed(h) && t in h
    ensures h[t].isInterface || h[t].isEnum ==> !MatchClass(h, t, artifactRepository)
    ensures !h[t].isInterface && !h[t].isEnum ==>
      (MatchClass(h, t, artifactRepository) <==>
         IsMavenCompat(h[t]) || IsAssignableTo(h, t, artifactRepository))
  {
    var c := h[t];
    if !c.isInterface && !c.isEnum then IsMavenCompat(c) || IsAssignableTo(h, t, artifactRepository)
    else false
  }

  /** `matchMethod`: the method is declared on a maven-compat class. */
  predicate MatchMethod(h: Hierarchy, m: MethodInfo)
    requires m.declaringClass in h
  {
    IsMavenCompat(h[m.declaringClass])
  }

  /** Assignability is inherited: a type inherits from whatever its parents inherit from. */
  lemma AssignableThroughParent(h: Hierarchy, t: TypeId, p: TypeId, sup: TypeId)
    requires WellFormed(h) && t in h && IsParent(h[t], p) && IsAssignableTo(h, p, sup)
    ensures IsAssignableTo(h, t, sup)
  {
    var c := h[t];
    if p in c.ifaces {
      var i :| 0 <= i < |c.ifaces| && c.ifaces[i] == p;
      assert IsAssignableTo(h, c.ifaces[i], sup);
    }
  }

  /** Assignability is transitive, so a subclass of any `ArtifactRepository` implementation is
      itself matched (unless it is an interface or an enum). */
  lemma {:induction false} AssignableTransitive(h: Hierarchy, a: TypeId, b: TypeId, c: TypeId)
    requires WellFormed(h) && a in h && b in h
    requires IsAssignableTo(h, a, b) && IsAssignableTo(h, b, c)
    ensures IsAssignableTo(h, a, c)
    decreases h[a].depth
  {
    if a != b {
      var ca := h[a];
      if exists i | 0 <= i < |ca.ifaces| :: IsAssignableTo(h, ca.ifaces[i], b) {
        var i :| 0 <= i < |ca.ifaces| && IsAssignableTo(h, ca.ifaces[i], b);
        assert IsParent(ca, ca.ifaces[i]);
        AssignableTransitive(h, ca.ifaces[i], b, c);
        AssignableThroughParent(h, a, ca.ifaces[i], c);
      } else {
        var p := ca.superclass.value;
        AssignableTransitive(h, p, b, c);
        AssignableThroughParent(h, a, p, c);
      }
    }
  }

  /** `matchMethod` is the maven-compat test on the declaring class, so it agrees with the class
      matcher on every maven-compat class that is neither an interface nor an enum. */
  lemma MatchMethodOnCompatClass(h: Hierarchy, m: MethodInfo, artifactRepository: TypeId)
    requires WellFormed(h) && m.declaringClass in h
    requires !h[m.declaringClass].isInterface && !h[m.declaringClass].isEnum
    ensures MatchMethod(h, m) ==> MatchClass(h, m.declaringClass, artifactRepository)
  {
  }
}
