/** Loading and validating a contract ABI. */
module AbiSerializer {
  import opened Options
  import opened AbiTypes

  datatype FieldDef = FieldDef(name: Name, of: Name)
  datatype StructDef = StructDef(name: Name, base: Name, fields: seq<FieldDef>)
  datatype AbiDef = AbiDef(types: seq<TypeDef>, structs: seq<StructDef>, actions: seq<TypeDef>, tables: seq<TypeDef>)

  type Structs = map<Name, StructDef>

  /** The structs filed under their names, later ones over earlier ones. */
  function StructMap(structs: seq<StructDef>): (r: Structs)
    ensures |r| <= |structs|
    ensures forall n :: n in r ==> r[n].name == n
  {
    if structs == [] then map[]
    else StructMap(structs[..|structs| - 1])[structs[|structs| - 1].name := structs[|structs| - 1]]
  }

  /** Action or table names filed with their types. */
  function NameMap(entries: seq<TypeDef>): (r: map<Name, Name>)
    ensures |r| <= |entries|
  {
    if entries == [] then map[]
    else NameMap(entries[..|entries| - 1])[entries[|entries| - 1].newName := entries[|entries| - 1].of]
  }

  ghost function NameSet(names: seq<Name>): set<Name> {
    set i | 0 <= i < |names| :: names[i]
  }

  ghost predicate Different(names: seq<Name>) {
    forall i, j :: 0 <= i < j < |names| ==> names[i] != names[j]
  }

  lemma NoNames()
    ensures NameSet([]) == {}
  {
  }

  lemma NameSetMore(names: seq<Name>, n: Name)
    ensures NameSet(names + [n]) == NameSet(names) + {n}
  {
    var all := names + [n];
    forall x | x in NameSet(names) + {n} ensures x in NameSet(all) {
      if x == n {
        assert all[|names|] == n;
      } else {
        var i :| 0 <= i < |names| && names[i] == x;
        assert all[i] == x;
      }
    }
  }

  lemma DifferentMore(names: seq<Name>, n: Name)
    ensures Different(names + [n]) <==> Different(names) && n !in NameSet(names)
  {
    var all := names + [n];
    if Different(all) {
      forall i, j | 0 <= i < j < |names| ensures names[i] != names[j] { assert all[i] != all[j]; }
      forall i | 0 <= i < |names| ensures names[i] != n { assert all[i] != all[|names|]; }
    }
    if Different(names) && n !in NameSet(names) {
      forall i, j | 0 <= i < j < |all| ensures all[i] != all[j] {
        if j == |names| { assert names[i] in NameSet(names); }
      }
    }
  }

  /** No name is lost exactly if they are all different. */
  lemma {:induction false} NameSetSize(names: seq<Name>)
    ensures |NameSet(names)| <= |names| && (|NameSet(names)| == |names| <==> Different(names))
    decreases |names|
  {
    if names == [] {
      assert NameSet(names) == {};
    } else {
      hide NameSet, Different;
      var k := |names| - 1;
      assert names == names[..k] + [names[k]];
      NameSetSize(names[..k]);
      NameSetMore(names[..k], names[k]);
      DifferentMore(names[..k], names[k]);
    }
  }

  ghost function StructNames(structs: seq<StructDef>): (r: seq<Name>)
    ensures |r| == |structs|
  {
    seq(|structs|, i requires 0 <= i < |structs| => structs[i].name)
  }

  /** The last struct of a name is filed under it. */
  lemma {:induction false} StructFiled(structs: seq<StructDef>, i: nat)
    requires i < |structs| && forall j :: i < j < |structs| ==> structs[j].name != structs[i].name
    ensures structs[i].name in StructMap(structs) && StructMap(structs)[structs[i].name] == structs[i]
    decreases |structs|
  {
    var n := |structs| - 1;
    if i < n { StructFiled(structs[..n], i); }
  }

  lemma LastStructName(structs: seq<StructDef>)
    requires structs != []
    ensures var n := |structs| - 1; StructNames(structs) == StructNames(structs[..n]) + [structs[n].name]
  {
  }

  lemma {:induction false} StructKeys(structs: seq<StructDef>)
    ensures StructMap(structs).Keys == NameSet(StructNames(structs))
    decreases |structs|
  {
    if structs == [] {
      NoNames();
    } else {
      var n := |structs| - 1;
      hide NameSet;
      StructKeys(structs[..n]);
      LastStructName(structs);
      hide StructNames;
      NameSetMore(StructNames(structs[..n]), structs[n].name);
      assert StructMap(structs).Keys == StructMap(structs[..n]).Keys + {structs[n].name};
    }
  }

  /** Structs are accepted only if their names are different; then each is found under its name. */
  lemma StructsFiled(structs: seq<StructDef>)
    ensures |StructMap(structs)| == |structs| <==> Different(StructNames(structs))
    ensures Different(StructNames(structs)) ==>
      forall i :: 0 <= i < |structs| ==>
        structs[i].name in StructMap(structs) && StructMap(structs)[structs[i].name] == structs[i]
  {
    StructKeys(structs);
    assert |StructMap(structs)| == |StructMap(structs).Keys|;
    NameSetSize(StructNames(structs));
    if Different(StructNames(structs)) {
      forall i | 0 <= i < |structs|
        ensures structs[i].name in StructMap(structs) && StructMap(structs)[structs[i].name] == structs[i] {
        forall j | i < j < |structs| ensures structs[j].name != structs[i].name {
          assert StructNames(structs)[i] != StructNames(structs)[j];
        }
        StructFiled(structs, i);
      }
    }
  }

  /** For each struct with a base, the name of that base behind its typedefs. */
  function Bases(td: Typedefs, structs: Structs): Typedefs {
    map s | s in structs && structs[s].base != "" :: Resolved(td, structs[s].base)
  }

  /** Every base is a struct, and no struct is among its own bases. */
  predicate BasesOk(td: Typedefs, structs: Structs) {
    && (forall s :: s in Bases(td, structs) ==> Bases(td, structs)[s] in structs)
    && Acyclic(Bases(td, structs))
  }

  predicate FieldsOk(builtins: set<Name>, td: Typedefs, structs: Structs) {
    forall s :: s in structs ==>
      forall i :: 0 <= i < |structs[s].fields| ==> IsType(builtins, structs.Keys, td, structs[s].fields[i].of, 0)
  }

  predicate AllTypes(builtins: set<Name>, td: Typedefs, structs: Structs, entries: map<Name, Name>) {
    forall n :: n in entries ==> IsType(builtins, structs.Keys, td, entries[n], 0)
  }

  /** What is checked after the names have been filed. */
  predicate WellFormed(builtins: set<Name>, td: Typedefs, structs: Structs, actions: map<Name, Name>,
                       tables: map<Name, Name>) {
    && Acyclic(td) && AllTypes(builtins, td, structs, td) && BasesOk(td, structs) && FieldsOk(builtins, td, structs)
    && AllTypes(builtins, td, structs, actions) && AllTypes(builtins, td, structs, tables)
  }

  datatype Verdict = Accepted | Refused | CircularTypedef

  class Serializer {
    const builtins: set<Name>
    var typedefs: Typedefs
    var structs: Structs
    var actions: map<Name, Name>
    var tables: map<Name, Name>

    constructor (builtins: set<Name>)
      ensures this.builtins == builtins
    {
      this.builtins := builtins;
      typedefs, structs, actions, tables := map[], map[], map[], map[];
    }

    method FileStructs(defs: seq<StructDef>)
      modifies this`structs
      ensures structs == StructMap(defs)
    {
      structs := map[];
      var i := 0;
      while i < |defs|
        invariant i <= |defs| && structs == StructMap(defs[..i])
      {
        assert defs[..i + 1][..i] == defs[..i];
        structs := structs[defs[i].name := defs[i]];
        i := i + 1;
      }
      assert defs[..i] == defs;
    }

    method FileNames(entries: seq<TypeDef>) returns (r: map<Name, Name>)
      ensures r == NameMap(entries)
    {
      r := map[];
      var i := 0;
      while i < |entries|
        invariant i <= |entries| && r == NameMap(entries[..i])
      {
        assert entries[..i + 1][..i] == entries[..i];
        r := r[entries[i].newName := entries[i].of];
        i := i + 1;
      }
      assert entries[..i] == entries;
    }

    /** Declares the typedefs one after the other. */
    method DeclareTypes(types: seq<TypeDef>) returns (ok: bool)
      modifies this`typedefs
      ensures ok <==> Declared(builtins, structs.Keys, types).Some?
      ensures ok ==> Declared(builtins, structs.Keys, types) == Some(typedefs)
    {
      hide IsType;
      typedefs := map[];
      var i := 0;
      while i < |types|
        invariant i <= |types| && Declared(builtins, structs.Keys, types[..i]) == Some(typedefs)
      {
        assert types[..i + 1][..i] == types[..i];
        if !IsType(builtins, structs.Keys, typedefs, types[i].of, 0)
          || IsType(builtins, structs.Keys, typedefs, types[i].newName, 0) {
          NotDeclared(builtins, structs.Keys, types, i + 1);
          return false;
        }
        typedefs := typedefs[types[i].newName := types[i].of];
        i := i + 1;
      }
      assert types[..i] == types;
      ok := true;
    }

    method CheckTypes(entries: map<Name, Name>) returns (ok: bool)
      ensures ok <==> AllTypes(builtins, typedefs, structs, entries)
    {
      hide IsType;
      var todo := entries.Keys;
      while todo != {}
        invariant todo <= entries.Keys
        invariant forall n :: n in entries && n !in todo ==> IsType(builtins, structs.Keys, typedefs, entries[n], 0)
        decreases |todo|
      {
        var n :| n in todo;
        if !IsType(builtins, structs.Keys, typedefs, entries[n], 0) {
          return false;
        }
        todo := todo - {n};
      }
      ok := true;
    }

    method CheckTypedefs() returns (ok: bool)
      ensures ok <==> Acyclic(typedefs)
    {
      hide Ends;
      var todo := typedefs.Keys;
      while todo != {}
        invariant todo <= typedefs.Keys
        invariant forall t :: t in typedefs && t !in todo ==> Ends(typedefs, t, |typedefs|)
        decreases |todo|
      {
        var t :| t in todo;
        var ends := WalkChain(typedefs, t);
        if !ends {
          return false;
        }
        todo := todo - {t};
      }
      ok := true;
    }

    /** Walks the bases of a struct, remembering every struct seen. */
    method WalkBases(s: Name) returns (ok: bool)
      requires s in structs && forall n :: n in structs ==> structs[n].name == n
      ensures ok ==> Ends(Bases(typedefs, structs), s, |Bases(typedefs, structs)|)
      ensures ok && s in Bases(typedefs, structs) ==> Bases(typedefs, structs)[s] in structs
      ensures !ok ==> !BasesOk(typedefs, structs)
    {
      hide Ends, Bases, Resolved, Acyclic;
      ghost var bases := Bases(typedefs, structs);
      BaseOf(typedefs, structs, s);
      var at, seen := structs[s], {s};
      ghost var steps := 0;
      while at.base != ""
        invariant at.name in structs && at == structs[at.name] && at.name in seen && s in seen && seen <= structs.Keys
        invariant forall x :: x in seen && x != at.name ==> x in bases && bases[x] in seen
        invariant forall n: nat :: Ends(bases, at.name, n) ==> Ends(bases, s, n + steps)
        decreases structs.Keys - seen
      {
        var base := ResolveType(typedefs, at.base);
        BaseOf(typedefs, structs, at.name);
        if base !in structs {
          return false;
        }
        if structs[base].name in seen {
          ClosedNeverEnds(bases, seen, s, |bases|);
          NotAcyclic(bases, s);
          return false;
        }
        forall n: nat | Ends(bases, base, n) ensures Ends(bases, s, n + (steps + 1)) {
          OneStep(bases, at.name, n);
          assert Ends(bases, at.name, n + 1);
        }
        steps := steps + 1;
        at, seen := structs[base], seen + {base};
      }
      BaseOf(typedefs, structs, at.name);
      NoStep(bases, at.name, 0);
      EndsInTime(bases, s, 0 + steps);
      ok := true;
    }

    method CheckFields(s: Name) returns (ok: bool)
      requires s in structs
      ensures ok <==> forall i :: 0 <= i < |structs[s].fields| ==>
                        IsType(builtins, structs.Keys, typedefs, structs[s].fields[i].of, 0)
    {
      hide IsType;
      var i := 0;
      while i < |structs[s].fields|
        invariant i <= |structs[s].fields|
        invariant forall k :: 0 <= k < i ==> IsType(builtins, structs.Keys, typedefs, structs[s].fields[k].of, 0)
      {
        if !IsType(builtins, structs.Keys, typedefs, structs[s].fields[i].of, 0) {
          return false;
        }
        i := i + 1;
      }
      ok := true;
    }

    method CheckStruct(s: Name) returns (ok: bool)
      requires s in structs && forall n :: n in structs ==> structs[n].name == n
      ensures ok ==> StructOk(builtins, typedefs, structs, s)
      ensures !ok ==> !BasesOk(typedefs, structs) || !FieldsOk(builtins, typedefs, structs)
    {
      hide IsType, Ends, Bases, BasesOk;
      ok := WalkBases(s);
      if ok {
        ok := CheckFields(s);
      }
    }

    method CheckStructs() returns (ok: bool)
      requires forall n :: n in structs ==> structs[n].name == n
      ensures ok <==> BasesOk(typedefs, structs) && FieldsOk(builtins, typedefs, structs)
    {
      hide StructOk, BasesOk, FieldsOk;
      var todo := structs.Keys;
      while todo != {}
        invariant todo <= structs.Keys
        invariant forall s :: s in structs && s !in todo ==> StructOk(builtins, typedefs, structs, s)
        decreases |todo|
      {
        var s :| s in todo;
        ok := CheckStruct(s);
        if !ok {
          return;
        }
        todo := todo - {s};
      }
      AllStructsOk(builtins, typedefs, structs);
      ok := true;
    }

    /** Checks what has been filed, circular typedefs first. */
    method Validate() returns (r: Verdict)
      requires forall n :: n in structs ==> structs[n].name == n
      ensures r.Accepted? <==> WellFormed(builtins, typedefs, structs, actions, tables)
      ensures r.CircularTypedef? <==> !Acyclic(typedefs)
    {
      hide Acyclic, AllTypes, BasesOk, FieldsOk;
      var ok := CheckTypedefs();
      if !ok {
        return CircularTypedef;
      }
      ok := CheckTypes(typedefs);
      if !ok {
        return Refused;
      }
      ok := CheckStructs();
      if !ok {
        return Refused;
      }
      ok := CheckTypes(actions);
      if !ok {
        return Refused;
      }
      ok := CheckTypes(tables);
      return if ok then Accepted else Refused;
    }

    /** Loads an ABI: accepted exactly when its typedefs can be declared in order, no name is filed
        twice, and everything refers to known types without circles. */
    method SetAbi(abi: AbiDef) returns (r: Verdict)
      modifies this
      ensures r.Accepted? <==> Acceptable(builtins, abi)
      ensures r.Accepted? ==>
        Declared(builtins, structs.Keys, abi.types) == Some(typedefs) && structs == StructMap(abi.structs)
      ensures r.Accepted? ==> actions == NameMap(abi.actions) && tables == NameMap(abi.tables)
      ensures r.Accepted? ==> WellFormed(builtins, typedefs, structs, actions, tables)
      ensures r.CircularTypedef? ==> !StructsAreTypes(builtins, StructMap(abi.structs).Keys)
    {
      hide IsType, WellFormed, Acyclic;
      FileStructs(abi.structs);
      var ok := DeclareTypes(abi.types);
      if !ok {
        return Refused;
      }
      actions := FileNames(abi.actions);
      tables := FileNames(abi.tables);
      if |typedefs| != |abi.types| || |structs| != |abi.structs| || |actions| != |abi.actions|
        || |tables| != |abi.tables| {
        return Refused;
      }
      r := Validate();
      if r.CircularTypedef? && StructsAreTypes(builtins, structs.Keys) {
        DeclaredInOrder(builtins, structs.Keys, abi.types);
        assert false;
      }
    }
  }

  /** The ABI passes every check. */
  predicate Acceptable(builtins: set<Name>, abi: AbiDef) {
    var structs, actions, tables := StructMap(abi.structs), NameMap(abi.actions), NameMap(abi.tables);
    && |structs| == |abi.structs| && |actions| == |abi.actions| && |tables| == |abi.tables|
    && Passes(builtins, structs.Keys, abi.types)
    && WellFormed(builtins, Declared(builtins, structs.Keys, abi.types).value, structs, actions, tables)
  }

  lemma BaseOf(td: Typedefs, structs: Structs, s: Name)
    requires s in structs
    ensures s in Bases(td, structs) <==> structs[s].base != ""
    ensures s in Bases(td, structs) ==> Bases(td, structs)[s] == Resolved(td, structs[s].base)
  {
  }

  /** One struct passes: its bases are structs and end, and its fields have known types. */
  predicate StructOk(builtins: set<Name>, td: Typedefs, structs: Structs, s: Name)
    requires s in structs
  {
    && Ends(Bases(td, structs), s, |Bases(td, structs)|)
    && (s in Bases(td, structs) ==> Bases(td, structs)[s] in structs)
    && forall i :: 0 <= i < |structs[s].fields| ==> IsType(builtins, structs.Keys, td, structs[s].fields[i].of, 0)
  }

  lemma AllStructsOk(builtins: set<Name>, td: Typedefs, structs: Structs)
    requires forall s :: s in structs ==> StructOk(builtins, td, structs, s)
    ensures BasesOk(td, structs) && FieldsOk(builtins, td, structs)
  {
    hide IsType, Ends;
  }

  lemma NotAcyclic(td: Typedefs, t: Name)
    requires t in td && !Ends(td, t, |td|)
    ensures !Acyclic(td)
  {
  }

  lemma {:induction false} NotDeclared(builtins: set<Name>, structs: set<Name>, types: seq<TypeDef>, n: nat)
    requires n <= |types| && Declared(builtins, structs, types[..n]).None?
    ensures Declared(builtins, structs, types).None?
    decreases |types|
  {
    if n < |types| {
      assert types[..|types| - 1][..n] == types[..n];
      NotDeclared(builtins, structs, types[..|types| - 1], n);
    } else {
      assert types[..n] == types;
    }
  }
}
