/**
  The resolved IDL model and its name index (crates/px-bindings/src/resolve.rs).
 */
module IdlModel {
  import opened Common
  import opened IdlTypes

  datatype DictMember = DictMember(name: string, ty: RType, required: bool)

  datatype Dict = Dict(name: string, parent: Option<string>, members: seq<DictMember>)

  datatype ContainerKind = InterfaceContainer | CallbackContainer | NamespaceContainer

  /** Where an interface is exposed; an interface that does not say is not checked. */
  datatype Exposure = Unspecified | AllGlobals | Globals(names: set<string>)
  {
    predicate SubsetOf(other: Exposure) {
      || Unspecified? || other.Unspecified? || other.AllGlobals?
      || (Globals? && other.Globals? && names <= other.names)
    }
  }

  datatype Container = Container(name: string, kind: ContainerKind, parent: Option<string>, exposure: Exposure)

  datatype NameKind = ContainerName | DictionaryName | OtherName

  ghost predicate DistinctNames(ms: seq<DictMember>) {
    forall i, j :: 0 <= i < j < |ms| ==> ms[i].name != ms[j].name
  }

  datatype Model = Model(containers: seq<Container>, dictionaries: seq<Dict>, index: map<string, (NameKind, nat)>)
  {
    function GetContainer(n: string): Option<Container> {
      if n in index && index[n].0 == ContainerName && index[n].1 < |containers|
      then Some(containers[index[n].1]) else None
    }

    function GetDict(n: string): Option<Dict> {
      if n in index && index[n].0 == DictionaryName && index[n].1 < |dictionaries|
      then Some(dictionaries[index[n].1]) else None
    }

    /** Names are declared once, so the index and the definition lists agree, and members have distinct names. */
    ghost predicate WellIndexed() {
      && (forall i :: 0 <= i < |dictionaries| ==>
            dictionaries[i].name in index && index[dictionaries[i].name] == (DictionaryName, i))
      && (forall i :: 0 <= i < |containers| ==>
            containers[i].name in index && index[containers[i].name] == (ContainerName, i))
      && (forall n :: GetDict(n).Some? ==> GetDict(n).value.name == n)
      && (forall n :: GetContainer(n).Some? ==> GetContainer(n).value.name == n)
      && (forall i :: 0 <= i < |dictionaries| ==> DistinctNames(dictionaries[i].members))
    }
  }
}
