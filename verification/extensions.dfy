/** The `GetName` extension method on controller types
    (Extensions/ControllerExtensions.cs). */
module ControllerExtensions {

  /** A CLR type: its namespace and its simple name. */
  datatype Type = Type(namespace: string, name: string)

  /** Length of the conventional "Controller" suffix, hard-coded as 10 in the
      source; it equals |ControllerSuffix|. */
  const SuffixLength: nat := 10

  const ControllerSuffix: string := "Controller"

  /** The controller name used for routing: the type's name without its last
      ten characters. Shorter names make `Substring` throw, so the model
      demands at least ten characters. */
  function GetName(controllerType: Type): (r: string)
    requires |controllerType.name| >= SuffixLength
    ensures |r| == |controllerType.name| - SuffixLength
    ensures r <= controllerType.name
  {
    controllerType.name[..|controllerType.name| - SuffixLength]
  }

  /** For a name that ends in "Controller", GetName undoes appending the suffix. */
  lemma GetNameStripsControllerSuffix(controllerType: Type)
    requires |controllerType.name| >= |ControllerSuffix|
    requires controllerType.name[|controllerType.name| - |ControllerSuffix|..] == ControllerSuffix
    ensures GetName(controllerType) + ControllerSuffix == controllerType.name
  {
    assert SuffixLength == |ControllerSuffix|;
  }

  /** Appending the suffix to any name and taking GetName gives the name back. */
  lemma GetNameOfSuffixed(namespace: string, name: string)
    ensures GetName(Type(namespace, name + ControllerSuffix)) == name
  {
  }

  /** The controller in this model: `typeof(ReposController).GetName()` is
      "Repos", whatever its namespace. */
  lemma ReposControllerName(namespace: string)
    ensures GetName(Type(namespace, "ReposController")) == "Repos"
  {
  }

  /** GetName reads only the type's simple name: two types in different
      namespaces with the same name get the same result. */
  lemma GetNameDependsOnNameOnly(t1: Type, t2: Type)
    requires |t1.name| >= SuffixLength && t1.name == t2.name
    ensures GetName(t1) == GetName(t2)
  {
  }
}
