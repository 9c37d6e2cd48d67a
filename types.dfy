/** Static type metadata the classifiers consume. The JVM's reflection API (`getPackage`,
    `getModifiers`, `getAnnotation(Deprecated.class)`, `getInterfaces`, `getSuperclass`,
    `getClassLoader().getResource`) is replaced by a record per type, looked up in a map. */
module TypeModel {
  import opened Common

  /** Handle of a loaded type (a `Class<?>` object). */
  type TypeId = string

  /** A class loader, reduced to what `getResource` answers: resource name to URL path. */
  datatype ClassLoader = ClassLoader(resources: map<string, string>)

  datatype TypeInfo = TypeInfo(
    name: string,               // `Class.getName()`, dotted binary name
    pkg: Option<string>,        // `getPackage().getName()`, None when the package is null
    isFinal: bool,              // `Modifier.isFinal(getModifiers())`
    isInterface: bool,
    isEnum: bool,
    deprecated: bool,           // carries `@Deprecated` itself
    ifaces: seq<TypeId>,        // `getInterfaces()`, in declaration order
    superclass: Option<TypeId>, // `getSuperclass()`, None for interfaces and `Object`
    loader: Option<ClassLoader>,// `getClassLoader()`, None for the bootstrap loader
    depth: nat)                 // length of the longest ancestor chain: a measure, not metadata

  type Hierarchy = map<TypeId, TypeInfo>

  /** A direct ancestor: an implemented interface or the superclass. */
  predicate IsParent(c: TypeInfo, p: TypeId) {
    p in c.ifaces || c.superclass == Some(p)
  }

  /** Every direct ancestor of `c` is known and strictly lower in the hierarchy. */
  ghost predicate ParentsBelow(h: Hierarchy, c: TypeInfo) {
    forall p | IsParent(c, p) :: p in h && h[p].depth < c.depth
  }

  /** The JVM guarantees a closed, acyclic type graph; `depth` witnesses acyclicity. */
  ghost predicate WellFormed(h: Hierarchy) {
    forall t | t in h :: ParentsBelow(h, h[t])
  }

  /** `name.replace('.', '/')`. */
  function SlashedName(name: string): (r: string)
    ensures |r| == |name|
    ensures forall i | 0 <= i < |name| :: r[i] == (if name[i] == '.' then '/' else name[i])
  {
    if name == [] then []
    else [if name[0] == '.' then '/' else name[0]] + SlashedName(name[1..])
  }

  /** The resource a class is loaded from: its binary name with slashes, plus ".class". */
  function ResourceName(name: string): (r: string)
    ensures |r| == |name| + 6 && r[|name|..] == ".class"
    ensures forall i | 0 <= i < |name| :: r[i] != '.'
  {
    SlashedName(name) + ".class"
  }

  const CompatMarker := "/maven-compat-"

  /** `isMavenCompatClass` (current variant) and `isMavenCompat` (older variant), which are the
      same code: the class's loader resolves the class's own resource, and the resolved URL path
      names the maven-compat artifact. */
  predicate IsMavenCompat(c: TypeInfo) {
    && c.loader.Some?
    && ResourceName(c.name) in c.loader.value.resources
    && Contains(c.loader.value.resources[ResourceName(c.name)], CompatMarker)
  }

  /** The unit test's own class, loaded from the test output directory. */
  const TestPackage := "eu.maveniverse.maven.extensions.mojosniffer"
  const TestClassName := TestPackage + ".MojoSnifferTest"
  const TestClassesDir := "/work/target/test-classes/"

  /** The unit test's cases: a class whose loader resolves its own resource inside the maven-compat
      jar (as `ArtifactResolver`'s does) is a maven-compat class; the test class, resolved in the
      test output directory, is not; and a class from the bootstrap loader never is. */
  lemma MavenCompatExamples(name: string)
    ensures IsMavenCompat(CompatType(name, "file:/m2/maven-compat-3.9.6.jar!/" + ResourceName(name)))
    ensures !IsMavenCompat(CompatType(TestClassName, TestClassesDir + ResourceName(TestClassName)))
    ensures !IsMavenCompat(CompatType(name, "").(loader := None))
  {
    var path := "file:/m2" + CompatMarker + "3.9.6.jar!/" + ResourceName(name);
    assert path == "file:/m2/maven-compat-3.9.6.jar!/" + ResourceName(name);
    assert path[8..8 + |CompatMarker|] == CompatMarker;
    ContainsAt(path, CompatMarker, 8);

    TestClassPathOutsideCompat();
  }

  /** A class whose name has no '-', resolved under a directory whose path holds a single '-':
      the resource path holds one '-', the marker two. */
  lemma OneDashOutsideCompat(before: string, after: string, name: string)
    requires '-' !in before && '-' !in after && '-' !in name
    ensures !Contains(before + "-" + after + ResourceName(name), CompatMarker)
  {
    var slashed := SlashedName(name);
    assert '-' !in slashed by {
      forall k | 0 <= k < |slashed|
        ensures slashed[k] != '-'
      {
        assert name[k] != '-';
      }
    }
    var rest := after + (slashed + ".class");
    assert '-' !in ".class";
    assert before + "-" + after + ResourceName(name) == before + ['-'] + rest;
    assert CompatMarker[6] == '-' && CompatMarker[13] == '-';
    LoneElementRulesOut(before, '-', rest, CompatMarker, 6, 13);
  }

  /** The test class's path in the test output directory is not a maven-compat path. */
  lemma TestClassPathOutsideCompat()
    ensures !Contains(TestClassesDir + ResourceName(TestClassName), CompatMarker)
  {
    assert '-' !in "/work/target/test" && '-' !in "classes/";
    assert '-' !in TestPackage && '-' !in ".MojoSnifferTest";
    assert TestClassesDir == "/work/target/test" + "-" + "classes/";
    OneDashOutsideCompat("/work/target/test", "classes/", TestClassName);
  }

  /** A type named `name`, in the maven-compat interface's package, whose loader resolves its
      resource to `path`; only the name and the loader matter to `IsMavenCompat`. */
  function CompatType(name: string, path: string): (c: TypeInfo)
    ensures c.loader.Some? && ResourceName(name) in c.loader.value.resources
    ensures c.loader.value.resources[ResourceName(name)] == path
  {
    TypeInfo(name, Some("org.apache.maven.artifact.resolver"), false, true, false, false, [], None,
             Some(ClassLoader(map[ResourceName(name) := path])), 0)
  }
}
