/** Type names of a contract ABI: typedefs, their order of declaration, and their resolution. */
module AbiTypes {
  import opened Options

  type Name = string
  type Typedefs = map<Name, Name>

  const MAX_RECURSION: nat := 32

  predicate IsArray(t: Name) {
    |t| >= 2 && t[|t| - 2..] == "[]"
  }

  predicate IsOptional(t: Name) {
    |t| >= 1 && t[|t| - 1..] == "?"
  }

  /** The name without one array or optional suffix. */
  function Fundamental(t: Name): (r: Name)
    ensures r == t <==> !IsArray(t) && !IsOptional(t)
  {
    if IsArray(t) then t[..|t| - 2] else if IsOptional(t) then t[..|t| - 1] else t
  }

  /** One suffix is cut off, an array suffix before an optional one, and nothing else. */
  lemma SuffixCut(t: Name)
    ensures t == Fundamental(t) + if IsArray(t) then "[]" else if IsOptional(t) then "?" else ""
  {
    var r := Fundamental(t);
    assert t == t[..|r|] + t[|r|..];
  }

  lemma ArraySuffix(t: Name)
    ensures IsArray(t + "[]") && Fundamental(t + "[]") == t
  {
    var s := t + "[]";
    assert |s| - 2 == |t| && s[|t|..] == "[]" && s[..|t|] == t;
  }

  lemma OptionalSuffix(t: Name)
    ensures !IsArray(t + "?") && IsOptional(t + "?") && Fundamental(t + "?") == t
  {
    var s := t + "?";
    assert |s| - 1 == |t| && s[|t|..] == "?" && s[..|t|] == t;
    NotArray(s);
  }

  lemma NotArray(s: Name)
    requires |s| > 0 && s[|s| - 1] == '?'
    ensures !IsArray(s)
  {
    if |s| >= 2 { assert s[|s| - 2..][1] == '?'; }
  }

  /** Whether a name is known, looking through typedefs up to the recursion limit. */
  predicate IsType(builtins: set<Name>, structs: set<Name>, td: Typedefs, t: Name, depth: nat)
    decreases MAX_RECURSION - depth
  {
    depth < MAX_RECURSION &&
    var f := Fundamental(t);
    if f in builtins then true
    else if f in td then IsType(builtins, structs, td, td[f], depth + 1)
    else f in structs
  }

  /** The names met when a name is looked up: each but the last is a typedef, and the next is what it stands
      for without a suffix. Built-in names are not looked up further. */
  ghost predicate LooksUp(builtins: set<Name>, td: Typedefs, t: Name, names: seq<Name>) {
    && names != [] && names[0] == Fundamental(t)
    && forall i :: 0 <= i < |names| - 1 ==>
         names[i] !in builtins && names[i] in td && names[i + 1] == Fundamental(td[names[i]])
  }

  /** A name is known if looking it up ends, soon enough, at a built-in type or at a struct. */
  ghost predicate Reaches(builtins: set<Name>, structs: set<Name>, td: Typedefs, t: Name, depth: nat,
                          names: seq<Name>) {
    && LooksUp(builtins, td, t, names) && depth + |names| <= MAX_RECURSION
    && var last := names[|names| - 1];
    last in builtins || (last !in td && last in structs)
  }

  lemma LooksUpFirst(builtins: set<Name>, td: Typedefs, t: Name, names: seq<Name>)
    requires LooksUp(builtins, td, t, names) && |names| > 1
    ensures names[0] !in builtins && names[0] in td && LooksUp(builtins, td, td[names[0]], names[1..])
  {
    hide Fundamental;
    assert names[1] == Fundamental(td[names[0]]);
    forall i | 0 <= i < |names| - 2
      ensures names[1..][i] !in builtins && names[1..][i] in td
      ensures names[1..][i + 1] == Fundamental(td[names[1..][i]]) {
      assert names[i + 1] !in builtins;
    }
  }

  lemma LooksUpMore(builtins: set<Name>, td: Typedefs, t: Name, names: seq<Name>)
    requires Fundamental(t) !in builtins && Fundamental(t) in td && LooksUp(builtins, td, td[Fundamental(t)], names)
    ensures LooksUp(builtins, td, t, [Fundamental(t)] + names)
  {
    hide Fundamental;
    var all := [Fundamental(t)] + names;
    forall i | 0 <= i < |all| - 1
      ensures all[i] !in builtins && all[i] in td && all[i + 1] == Fundamental(td[all[i]]) {
      if i > 0 { assert all[i] == names[i - 1] && all[i + 1] == names[i]; }
    }
  }

  lemma {:induction false} ReachedIsType(builtins: set<Name>, structs: set<Name>, td: Typedefs, t: Name, depth: nat,
                                         names: seq<Name>)
    requires Reaches(builtins, structs, td, t, depth, names)
    ensures IsType(builtins, structs, td, t, depth)
    decreases |names|
  {
    hide Fundamental;
    if |names| > 1 {
      LooksUpFirst(builtins, td, t, names);
      hide LooksUp;
      assert names[1..][|names| - 2] == names[|names| - 1];
      ReachedIsType(builtins, structs, td, td[names[0]], depth + 1, names[1..]);
    }
  }

  lemma {:induction false} IsTypeReached(builtins: set<Name>, structs: set<Name>, td: Typedefs, t: Name,
                                         depth: nat) returns (names: seq<Name>)
    requires IsType(builtins, structs, td, t, depth)
    ensures Reaches(builtins, structs, td, t, depth, names)
    decreases MAX_RECURSION - depth
  {
    hide Fundamental;
    var f := Fundamental(t);
    if f in builtins || f !in td {
      names := [f];
    } else {
      var rest := IsTypeReached(builtins, structs, td, td[f], depth + 1);
      LooksUpMore(builtins, td, t, rest);
      names := [f] + rest;
      assert names[|names| - 1] == rest[|rest| - 1];
    }
  }

  lemma IsTypeExact(builtins: set<Name>, structs: set<Name>, td: Typedefs, t: Name, depth: nat)
    ensures IsType(builtins, structs, td, t, depth) <==>
      exists names :: Reaches(builtins, structs, td, t, depth, names)
  {
    hide IsType, Reaches;
    if IsType(builtins, structs, td, t, depth) {
      var names := IsTypeReached(builtins, structs, td, t, depth);
    }
    if names :| Reaches(builtins, structs, td, t, depth, names) {
      ReachedIsType(builtins, structs, td, t, depth, names);
    }
  }

  /** The chain of typedefs from `t` ends after at most `n` steps. */
  predicate Ends(td: Typedefs, t: Name, n: nat)
    decreases n
  {
    t !in td || (n > 0 && Ends(td, td[t], n - 1))
  }

  function ChainEnd(td: Typedefs, t: Name, n: nat): (r: Name)
    requires Ends(td, t, n)
    ensures r !in td
    decreases n
  {
    if t !in td then t else ChainEnd(td, td[t], n - 1)
  }

  lemma {:induction false} EndsLater(td: Typedefs, t: Name, n: nat, m: nat)
    requires Ends(td, t, n) && n <= m
    ensures Ends(td, t, m)
    decreases n
  {
    if t in td { EndsLater(td, td[t], n - 1, m - 1); }
  }

  /** The chain ends after at most `n` steps, all of them from names in `within`. */
  predicate EndsWithin(td: Typedefs, within: set<Name>, t: Name, n: nat)
    decreases n
  {
    t !in td || (t in within && n > 0 && EndsWithin(td, within, td[t], n - 1))
  }

  /** A chain that ends before any chain from `x` does never meets `x`. */
  lemma {:induction false} Avoids(td: Typedefs, within: set<Name>, t: Name, n: nat, x: Name)
    requires EndsWithin(td, within, t, n) && !EndsWithin(td, within, x, n)
    ensures EndsWithin(td, within - {x}, t, n)
    decreases n
  {
    if t in td {
      if EndsWithin(td, within, x, n - 1) { EndsWithinLater(td, within, x, n - 1); }
      Avoids(td, within, td[t], n - 1, x);
    }
  }

  lemma {:induction false} EndsWithinLater(td: Typedefs, within: set<Name>, t: Name, n: nat)
    requires EndsWithin(td, within, t, n)
    ensures EndsWithin(td, within, t, n + 1)
    decreases n
  {
    if t in td { EndsWithinLater(td, within, td[t], n - 1); }
  }

  /** A chain that ends at all is no longer than there are names. */
  lemma {:induction false} Pigeonhole(td: Typedefs, within: set<Name>, t: Name, n: nat)
    requires EndsWithin(td, within, t, n)
    ensures EndsWithin(td, within, t, |within|)
    decreases |within|, n
  {
    if t in td {
      if EndsWithin(td, within, t, n - 1) {
        Pigeonhole(td, within, t, n - 1);
      } else {
        Avoids(td, within, td[t], n - 1, t);
        Pigeonhole(td, within - {t}, td[t], n - 1);
        WithinMore(td, within - {t}, within, td[t], |within - {t}|);
      }
    }
  }

  lemma {:induction false} WithinMore(td: Typedefs, a: set<Name>, b: set<Name>, t: Name, n: nat)
    requires EndsWithin(td, a, t, n) && a <= b
    ensures EndsWithin(td, b, t, n)
    decreases n
  {
    if t in td { WithinMore(td, a, b, td[t], n - 1); }
  }

  lemma {:induction false} EndsIsWithin(td: Typedefs, t: Name, n: nat)
    ensures Ends(td, t, n) <==> EndsWithin(td, td.Keys, t, n)
    decreases n
  {
    if t in td && n > 0 { EndsIsWithin(td, td[t], n - 1); }
  }

  /** A chain of typedefs that ends does so within as many steps as there are typedefs. */
  lemma EndsInTime(td: Typedefs, t: Name, n: nat)
    requires Ends(td, t, n)
    ensures Ends(td, t, |td|)
  {
    EndsIsWithin(td, t, n);
    Pigeonhole(td, td.Keys, t, n);
    EndsIsWithin(td, t, |td|);
  }

  /** No typedef leads back to itself. */
  predicate Acyclic(td: Typedefs) {
    forall t :: t in td ==> Ends(td, t, |td|)
  }

  /** The name behind a chain of typedefs; the name itself where the chain does not end. */
  function Resolved(td: Typedefs, t: Name): Name {
    if Ends(td, t, |td|) then ChainEnd(td, t, |td|) else t
  }

  /** Follows typedefs, giving up after as many steps as there are typedefs. */
  method ResolveType(td: Typedefs, t: Name) returns (r: Name)
    ensures r == Resolved(td, t)
  {
    if t in td {
      var at, i := t, |td|;
      while i > 0
        invariant 0 <= i <= |td| && at in td && (Ends(td, t, |td|) <==> Ends(td, at, i))
        invariant Ends(td, at, i) ==> ChainEnd(td, t, |td|) == ChainEnd(td, at, i)
      {
        var next := td[at];
        if next !in td {
          return next;
        }
        at, i := next, i - 1;
      }
    }
    r := t;
  }

  /** In an ABI without circular typedefs, resolution never gives up: its result is not a typedef. */
  lemma ResolvedIsNoTypedef(td: Typedefs, t: Name)
    requires Acyclic(td)
    ensures Resolved(td, t) !in td && Resolved(td, Resolved(td, t)) == Resolved(td, t)
  {
    assert Ends(td, t, |td|);
  }

  /** No chain that stays in a closed set of typedefs ends. */
  lemma {:induction false} ClosedNeverEnds(td: Typedefs, s: set<Name>, t: Name, n: nat)
    requires t in s && s <= td.Keys && forall x :: x in s ==> td[x] in s
    ensures !Ends(td, t, n)
    decreases n
  {
    if n > 0 { ClosedNeverEnds(td, s, td[t], n - 1); }
  }

  /** Walks the chain from `t`, remembering every name seen; fails at the first name seen before. */
  method WalkChain(td: Typedefs, t: Name) returns (ok: bool)
    requires t in td
    ensures ok <==> Ends(td, t, |td|)
  {
    var seen, at := {t, td[t]}, td[t];
    ghost var passed, steps := {t}, 1;
    ghost var inner: set<Name> := {};
    while at in td
      invariant seen == passed + {at} && t in passed
      invariant forall x :: x in passed ==> x in td && td[x] in seen
      invariant forall n: nat :: Ends(td, at, n) ==> Ends(td, t, n + steps)
      invariant inner <= passed && at !in inner && (inner + {t} == passed)
      decreases td.Keys - inner
    {
      var next := td[at];
      if next in seen {
        ClosedNeverEnds(td, passed + {at}, t, |td|);
        return false;
      }
      seen := seen + {next};
      passed, inner := passed + {at}, inner + {at};
      forall n: nat | Ends(td, next, n) ensures Ends(td, t, n + (steps + 1)) {
        assert Ends(td, at, n + 1);
      }
      steps := steps + 1;
      at := next;
    }
    assert Ends(td, at, 0);
    EndsInTime(td, t, 0 + steps);
    ok := true;
  }

  datatype TypeDef = TypeDef(newName: Name, of: Name)

  /** The typedefs after a list of declarations: each must name a known type, and a name that is not
      known yet. None where one is refused. */
  function Declared(builtins: set<Name>, structs: set<Name>, types: seq<TypeDef>): (r: Option<Typedefs>)
    ensures r.Some? ==> |r.value| <= |types|
    decreases |types|
  {
    if types == [] then Some(map[])
    else
      var n := |types| - 1;
      match Declared(builtins, structs, types[..n])
      case None => None
      case Some(td) =>
        if IsType(builtins, structs, td, types[n].of, 0) && !IsType(builtins, structs, td, types[n].newName, 0)
        then Some(td[types[n].newName := types[n].of])
        else None
  }

  /** The declarations pass all the checks made before circular typedefs are looked for. */
  predicate Passes(builtins: set<Name>, structs: set<Name>, types: seq<TypeDef>) {
    match Declared(builtins, structs, types)
    case None => false
    case Some(td) => |td| == |types|
  }

  /** The name of every struct is itself a known type: a struct with a suffixed name is one only if the
      name without the suffix is known. */
  predicate StructsAreTypes(builtins: set<Name>, structs: set<Name>) {
    forall s :: s in structs ==> Fundamental(s) in builtins || Fundamental(s) in structs
  }

  /** What holds of the typedefs while they are declared one after the other. */
  predicate Ordered(builtins: set<Name>, structs: set<Name>, td: Typedefs) {
    && (forall t :: t in td ==> t !in structs)
    && (forall t :: t in td ==> IsType(builtins, structs, td, td[t], 0))
    && Acyclic(td)
  }

  /** A name that is known stays known when a new one is declared. */
  lemma {:induction false} StillType(builtins: set<Name>, structs: set<Name>, td: Typedefs, n: Name, of: Name, t: Name,
                                     depth: nat)
    requires IsType(builtins, structs, td, t, depth) && n !in td && n !in structs
    ensures IsType(builtins, structs, td[n := of], t, depth)
    decreases MAX_RECURSION - depth
  {
    var f := Fundamental(t);
    if f !in builtins && f in td { StillType(builtins, structs, td, n, of, td[f], depth + 1); }
  }

  /** Chains that end at a name other than the new one still end. */
  lemma {:induction false} StillEnds(td: Typedefs, x: Name, of: Name, t: Name, n: nat)
    requires Ends(td, t, n) && x !in td && t != x && forall u :: u in td ==> td[u] != x
    ensures Ends(td[x := of], t, n)
    decreases n
  {
    if t in td { StillEnds(td, x, of, td[t], n - 1); }
  }

  lemma NewIsNoStruct(builtins: set<Name>, structs: set<Name>, td: Typedefs, x: Name)
    requires StructsAreTypes(builtins, structs) && (forall t :: t in td ==> t !in structs)
    requires !IsType(builtins, structs, td, x, 0)
    ensures x !in structs
  {
  }

  lemma NewEnds(td: Typedefs, x: Name, of: Name)
    requires Acyclic(td) && x !in td && of != x && forall u :: u in td ==> td[u] != x
    ensures Acyclic(td[x := of])
  {
    hide Ends;
    var td' := td[x := of];
    assert |td'| == |td| + 1;
    forall t | t in td' ensures Ends(td', t, |td'|) {
      var u := if t == x then of else t;
      assert Ends(td, u, |td|) by { if u !in td { NoStep(td, u, |td|); } }
      StillEnds(td, x, of, u, |td|);
      if t == x { OneStep(td', t, |td|); } else { EndsLater(td', t, |td|, |td'|); }
    }
  }

  lemma NoStep(td: Typedefs, t: Name, n: nat)
    requires t !in td
    ensures Ends(td, t, n)
  {
  }

  lemma OneStep(td: Typedefs, t: Name, n: nat)
    requires t in td && Ends(td, td[t], n)
    ensures Ends(td, t, n + 1)
  {
  }

  lemma DeclaredOnce(builtins: set<Name>, structs: set<Name>, td: Typedefs, x: Name, of: Name)
    requires StructsAreTypes(builtins, structs) && Ordered(builtins, structs, td) && x !in td
    requires IsType(builtins, structs, td, of, 0) && !IsType(builtins, structs, td, x, 0)
    ensures Ordered(builtins, structs, td[x := of])
  {
    NewIsNoStruct(builtins, structs, td, x);
    hide IsType, Acyclic, StructsAreTypes;
    NewEnds(td, x, of);
    var td' := td[x := of];
    forall t | t in td' ensures IsType(builtins, structs, td', td'[t], 0) {
      StillType(builtins, structs, td, x, of, td'[t], 0);
    }
  }

  /** Declaring before use keeps typedefs acyclic, as long as every struct name is a known type. */
  lemma {:induction false} DeclaredInOrder(builtins: set<Name>, structs: set<Name>, types: seq<TypeDef>)
    requires StructsAreTypes(builtins, structs) && Passes(builtins, structs, types)
    ensures Ordered(builtins, structs, Declared(builtins, structs, types).value)
    decreases |types|
  {
    if types != [] {
      var n := |types| - 1;
      var td := Declared(builtins, structs, types[..n]).value;
      var x := types[n].newName;
      assert td[x := types[n].of].Keys == td.Keys + {x};
      DeclaredInOrder(builtins, structs, types[..n]);
      DeclaredOnce(builtins, structs, td, x, types[n].of);
    }
  }

  function Listed(t: Name): (r: Name)
    ensures IsArray(r) && Fundamental(r) == t
  {
    t + "[]"
  }

  lemma {:induction false} LongerThanAll(names: set<Name>) returns (n: nat)
    ensures forall s :: s in names ==> |s| <= n
    decreases |names|
  {
    if names == {} {
      n := 0;
    } else {
      var s :| s in names;
      var m := LongerThanAll(names - {s});
      n := m + |s|;
    }
  }

  /** A name that is not among the given ones, nor among their prefixes or suffixed forms. */
  lemma FreshName(names: set<Name>) returns (p: Name)
    ensures !IsArray(p) && !IsOptional(p) && forall s :: s in names ==> |s| < |p|
  {
    var n := LongerThanAll(names);
    p := seq(n + 1, i => 'p');
    assert p[|p| - 1..][0] == 'p';
    if |p| >= 2 { assert p[|p| - 2..][0] == 'p'; }
  }

  /** A struct name that stands for itself again once it is declared as a typedef of its own list. */
  lemma {:induction false} SelfListed(builtins: set<Name>, structs: set<Name>, td: Typedefs, s: Name, depth: nat)
    requires s !in builtins && s in td && td[s] == Listed(s)
    ensures !IsType(builtins, structs, td, Listed(s), depth)
    decreases MAX_RECURSION - depth
  {
    if depth < MAX_RECURSION { SelfListed(builtins, structs, td, s, depth + 1); }
  }

  /** Four declarations that pass every earlier check and are circular, given a struct whose name is no
      type and a fresh name `p`. */
  function Trap(s: Name, p: Name, b: Name): seq<TypeDef> {
    [TypeDef(Listed(p), Listed(s)), TypeDef(p, b), TypeDef(s, Listed(s)), TypeDef(Listed(s), Listed(p))]
  }

  /** `s` names a struct but is no type itself, `b` is a built-in type, and `p` is longer than any name. */
  predicate Bait(builtins: set<Name>, structs: set<Name>, s: Name, p: Name, b: Name) {
    && s in structs && s !in builtins && Fundamental(s) !in builtins && Fundamental(s) !in structs
    && b in builtins && Fundamental(b) == b && !IsArray(p) && !IsOptional(p)
    && forall x :: x in builtins + structs ==> |x| < |p|
  }

  lemma TrapNames(builtins: set<Name>, structs: set<Name>, s: Name, p: Name, b: Name)
    requires Bait(builtins, structs, s, p, b)
    ensures s != p && s != Listed(p) && Fundamental(s) != p && Fundamental(s) != Listed(p)
    ensures Listed(s) != p && Listed(s) != Listed(p) && Listed(s) != s && Listed(p) != p && p !in builtins
  {
    assert |s| < |p| && |Fundamental(s)| <= |s|;
  }

  lemma TrapFirst(builtins: set<Name>, structs: set<Name>, s: Name, p: Name, b: Name)
    requires Bait(builtins, structs, s, p, b)
    ensures Declared(builtins, structs, Trap(s, p, b)[..1]) == Some(map[Listed(p) := Listed(s)])
  {
    hide Declared, Listed, IsArray, IsOptional, Fundamental;
    var trap := Trap(s, p, b);
    TrapNames(builtins, structs, s, p, b);
    assert trap[..1][..0] == [] && p !in structs;
    DeclareNone(builtins, structs);
    assert IsType(builtins, structs, map[], Listed(s), 0) && !IsType(builtins, structs, map[], Listed(p), 0);
    DeclareOne(builtins, structs, trap[..1], map[]);
  }

  lemma TrapHalf(builtins: set<Name>, structs: set<Name>, s: Name, p: Name, b: Name)
    requires Bait(builtins, structs, s, p, b)
    ensures Declared(builtins, structs, Trap(s, p, b)[..2]) == Some(map[Listed(p) := Listed(s), p := b])
  {
    hide Declared, Listed, IsArray, IsOptional, Fundamental;
    var trap, td := Trap(s, p, b), map[Listed(p) := Listed(s)];
    TrapNames(builtins, structs, s, p, b);
    TrapFirst(builtins, structs, s, p, b);
    assert trap[..2][..1] == trap[..1] && p !in structs;
    assert IsType(builtins, structs, td, b, 0) && !IsType(builtins, structs, td, p, 0);
    DeclareOne(builtins, structs, trap[..2], td);
  }

  lemma TrapDeclared(builtins: set<Name>, structs: set<Name>, s: Name, p: Name, b: Name)
    requires Bait(builtins, structs, s, p, b)
    ensures Declared(builtins, structs, Trap(s, p, b)) ==
      Some(map[Listed(p) := Listed(s), p := b, s := Listed(s), Listed(s) := Listed(p)])
  {
    hide Declared, Listed, IsArray, IsOptional, Fundamental;
    TrapHalf(builtins, structs, s, p, b);
    TrapNames(builtins, structs, s, p, b);
    var trap := Trap(s, p, b);
    assert trap[..3][..2] == trap[..2];
    var td2 := map[Listed(p) := Listed(s), p := b];
    DeclareOne(builtins, structs, trap[..3], td2);
    var td3 := td2[s := Listed(s)];
    SelfListed(builtins, structs, td3, s, 0);
    DeclareOne(builtins, structs, trap, td3);
  }

  lemma TrapCircular(builtins: set<Name>, structs: set<Name>, s: Name, p: Name, b: Name)
    requires Bait(builtins, structs, s, p, b)
    ensures Passes(builtins, structs, Trap(s, p, b)) && !Acyclic(Declared(builtins, structs, Trap(s, p, b)).value)
  {
    hide Declared, Listed, IsArray, IsOptional, Fundamental;
    TrapNames(builtins, structs, s, p, b);
    TrapDeclared(builtins, structs, s, p, b);
    var td := map[Listed(p) := Listed(s), p := b, s := Listed(s), Listed(s) := Listed(p)];
    assert td.Keys == {Listed(p), p, s, Listed(s)};
    ClosedNeverEnds(td, {Listed(p), Listed(s)}, Listed(p), |td|);
  }

  /** The check for circular typedefs can fail after the others have passed exactly when some struct has
      a name that is itself no type. */
  lemma CircularExact(builtins: set<Name>, structs: set<Name>)
    requires builtins != {} && forall b :: b in builtins ==> Fundamental(b) == b
    ensures StructsAreTypes(builtins, structs) <==>
      forall types :: Passes(builtins, structs, types) ==> Acyclic(Declared(builtins, structs, types).value)
  {
    hide Declared, Listed;
    if StructsAreTypes(builtins, structs) {
      forall types | Passes(builtins, structs, types) ensures Acyclic(Declared(builtins, structs, types).value) {
        DeclaredInOrder(builtins, structs, types);
      }
    } else {
      var s :| s in structs && Fundamental(s) !in builtins && Fundamental(s) !in structs;
      var b :| b in builtins;
      var p := FreshName(builtins + structs);
      TrapCircular(builtins, structs, s, p, b);
    }
  }

  lemma DeclareNone(builtins: set<Name>, structs: set<Name>)
    ensures Declared(builtins, structs, []) == Some(map[])
  {
  }

  lemma DeclareOne(builtins: set<Name>, structs: set<Name>, types: seq<TypeDef>, td: Typedefs)
    requires types != [] && Declared(builtins, structs, types[..|types| - 1]) == Some(td)
    requires IsType(builtins, structs, td, types[|types| - 1].of, 0)
    requires !IsType(builtins, structs, td, types[|types| - 1].newName, 0)
    ensures Declared(builtins, structs, types) == Some(td[types[|types| - 1].newName := types[|types| - 1].of])
  {
  }

  const INTEGER_TYPES: set<Name> := {"bool", "int8", "uint8", "int16", "uint16", "int32", "uint32", "int64", "uint64"}
  const VALUE_TYPES: set<Name> :=
    {"float32", "float64", "time_point", "time_point_sec", "name", "bytes", "string", "block_id_type"}
  const KEY_TYPES: set<Name> :=
    {"checksum160", "checksum256", "checksum512", "public_key", "signature", "symbol", "symbol_code", "contract_asset"}

  /** The built-in types. */
  const BUILTIN_TYPES: set<Name> := INTEGER_TYPES + VALUE_TYPES + KEY_TYPES

  lemma PlainName(t: Name)
    requires t != "" && t[|t| - 1] != ']' && t[|t| - 1] != '?'
    ensures Fundamental(t) == t
  {
  }

  ghost predicate Plain(names: set<Name>) {
    forall b :: b in names ==> Fundamental(b) == b && 4 <= |b| <= 14
  }

  lemma IntegersPlain()
    ensures "uint8" in INTEGER_TYPES && Plain(INTEGER_TYPES)
  {
    hide Fundamental, IsArray, IsOptional;
    forall b | b in INTEGER_TYPES ensures Fundamental(b) == b && 4 <= |b| <= 14 { PlainName(b); }
  }

  lemma ValuesPlain()
    ensures Plain(VALUE_TYPES)
  {
    hide Fundamental, IsArray, IsOptional;
    forall b | b in VALUE_TYPES ensures Fundamental(b) == b && 4 <= |b| <= 14 { PlainName(b); }
  }

  lemma KeysPlain()
    ensures Plain(KEY_TYPES)
  {
    hide Fundamental, IsArray, IsOptional;
    forall b | b in KEY_TYPES ensures Fundamental(b) == b && 4 <= |b| <= 14 { PlainName(b); }
  }

  lemma BuiltinsPlain()
    ensures "uint8" in BUILTIN_TYPES && Plain(BUILTIN_TYPES)
  {
    hide INTEGER_TYPES, VALUE_TYPES, KEY_TYPES, Fundamental;
    IntegersPlain();
    ValuesPlain();
    KeysPlain();
  }

  /** A contract with a struct named "x[]" and four typedefs that every check but the last lets through. */
  lemma CircularExample()
    ensures var structs, types := {"x[]"}, Trap("x[]", "pppppppppppppppp", "uint8");
      Passes(BUILTIN_TYPES, structs, types) && !Acyclic(Declared(BUILTIN_TYPES, structs, types).value)
  {
    BuiltinsPlain();
    hide BUILTIN_TYPES, Declared, Listed;
    var s, p, b := "x[]", "pppppppppppppppp", "uint8";
    assert Fundamental(s) == "x";
    PlainName(p);
    assert Bait(BUILTIN_TYPES, {s}, s, p, b);
    TrapCircular(BUILTIN_TYPES, {s}, s, p, b);
  }
}
