/**
 * Helpers/ResourceHelper.cs: qualifying a resource name with its assembly name, and the
 * failure of `GetEmbeddedResource` when the assembly has no such resource. An assembly
 * is given data: its simple name, its full name and its manifest resources (each name
 * with the text its stream holds).
 */
module Resources {
  import opened Wrappers

  datatype AssemblyInfo = AssemblyInfo(name: string, fullName: string, manifestResources: map<string, string>)

  datatype ResourceError = FileNotFound(message: string)

  /** `s.Replace(from, to)` for one-character strings: every `from` becomes `to`, nothing else moves. */
  function ReplaceChar(s: string, from: char, to: char): (r: string)
    ensures |r| == |s|
    ensures forall i :: 0 <= i < |s| ==> r[i] == (if s[i] == from then to else s[i])
  {
    if s == [] then [] else [if s[0] == from then to else s[0]] + ReplaceChar(s[1..], from, to)
  }

  /** One character of a namespace-safe name: space to '_', either slash to '.'. */
  function SafeChar(c: char): char
  {
    if c == ' ' then '_' else if c == '\\' || c == '/' then '.' else c
  }

  /**
   * The three replacements in turn. The result has the input's length,
   * maps each character on its own through `SafeChar`, and holds no space and no slash.
   */
  function NamespaceSafe(resourceName: string): (r: string)
    ensures |r| == |resourceName|
    ensures forall i :: 0 <= i < |r| ==> r[i] == SafeChar(resourceName[i])
    ensures forall i :: 0 <= i < |r| ==> r[i] != ' ' && r[i] != '\\' && r[i] != '/'
  {
    ReplaceChar(ReplaceChar(ReplaceChar(resourceName, ' ', '_'), '\\', '.'), '/', '.')
  }

  /** Making a name namespace-safe a second time changes nothing. */
  lemma NamespaceSafeIdempotent(resourceName: string)
    ensures NamespaceSafe(NamespaceSafe(resourceName)) == NamespaceSafe(resourceName)
  {
    var once := NamespaceSafe(resourceName);
    var twice := NamespaceSafe(once);
    assert forall i :: 0 <= i < |twice| ==> twice[i] == once[i];
  }

  /** A name is left as it is exactly when it holds no space and no slash of either kind. */
  lemma NamespaceSafeUnchanged(resourceName: string)
    ensures NamespaceSafe(resourceName) == resourceName
            <==> forall i :: 0 <= i < |resourceName| ==> resourceName[i] !in {' ', '\\', '/'}
  {
    var r := NamespaceSafe(resourceName);
    if r == resourceName {
      forall i | 0 <= i < |resourceName|
        ensures resourceName[i] !in {' ', '\\', '/'}
      {
        assert r[i] == resourceName[i];
      }
    }
    if forall i :: 0 <= i < |resourceName| ==> resourceName[i] !in {' ', '\\', '/'} {
      assert forall i :: 0 <= i < |r| ==> r[i] == resourceName[i];
    }
  }

  /**
   * `FormatResourceName`: "<assembly name>.<safe name>", the assembly being the given one or, when
   * none is given, the default one.
   */
  function FormatResourceName(resourceName: string, assembly: Option<AssemblyInfo>,
                              defaultAssembly: AssemblyInfo): (r: string)
    ensures var prefix := assembly.GetOr(defaultAssembly).name;
            && |r| == |prefix| + 1 + |resourceName|
            && r[..|prefix|] == prefix
            && r[|prefix|] == '.'
            && r[|prefix| + 1..] == NamespaceSafe(resourceName)
  {
    var a := assembly.GetOr(defaultAssembly);
    a.name + "." + NamespaceSafe(resourceName)
  }

  /**
   * `GetEmbeddedResource`: the text of the named manifest resource of the given (or default)
   * assembly; with no such resource, a `FileNotFoundException` naming the resource and
   * the assembly's full name.
   */
  function GetEmbeddedResource(resourceName: string, assembly: Option<AssemblyInfo>,
                               defaultAssembly: AssemblyInfo): (r: Result<string, ResourceError>)
    ensures var a := assembly.GetOr(defaultAssembly);
            && (r.Failure? <==> resourceName !in a.manifestResources)
            && (r.Success? ==> r.value == a.manifestResources[resourceName])
            && (r.Failure? ==> r.error == FileNotFound("No " + resourceName + " resource in assembly " + a.fullName + "."))
  {
    var a := assembly.GetOr(defaultAssembly);
    if resourceName !in a.manifestResources then
      Failure(FileNotFound("No " + resourceName + " resource in assembly " + a.fullName + "."))
    else
      Success(a.manifestResources[resourceName])
  }
}
