/** The scope table: a tree of scopes, each binding names to symbols, with a
    link to the enclosing scope for outward lookup. */
module ScopeTable {
  import opened Common

  datatype SymbolType = FUNCTION | VARIABLE

  /** A binding: its name, its kind, and the AST node that defines it. */
  datatype Symbol<D> = Symbol(name: string, kind: SymbolType, data: D)

  class Table<D> {
    const name: string
    /** The enclosing scope; it never changes once the scope exists. */
    const parent: Table?<D>
    /** The enclosing scopes from the nearest outward. */
    ghost const ancestors: seq<Table<D>>
    var symbols: map<string, Symbol<D>>
    var children: seq<Table<D>>

    /** Parent links form a finite chain ending at a scope without parent. */
    ghost predicate Linked()
      decreases |ancestors|
    {
      if parent == null then ancestors == []
      else ancestors == [parent] + parent.ancestors && parent.Linked()
    }

    /** This scope followed by its enclosing scopes: the order of lookup. */
    ghost function Path(): seq<Table<D>>
    {
      [this] + ancestors
    }

    /** The global scope. */
    constructor Root(name: string)
      ensures this.name == name && parent == null && Linked()
      ensures symbols == map[] && children == []
    {
      this.name := name;
      parent := null;
      ancestors := [];
      symbols := map[];
      children := [];
    }

    constructor Child(name: string, parent: Table<D>)
      requires parent.Linked()
      ensures this.name == name && this.parent == parent && Linked()
      ensures ancestors == parent.Path()
      ensures symbols == map[] && children == []
    {
      this.name := name;
      this.parent := parent;
      ancestors := [parent] + parent.ancestors;
      symbols := map[];
      children := [];
    }

    /** `create_child`: a new empty scope, owned by this one, whose parent
        is this one. */
    method CreateChild(childName: string) returns (child: Table<D>)
      requires Linked()
      modifies this
      ensures fresh(child)
      ensures child.name == childName && child.parent == this && child.Linked()
      ensures child.Path() == [child] + Path()
      ensures child.symbols == map[] && child.children == []
      ensures children == old(children) + [child] && symbols == old(symbols)
    {
      child := new Table.Child(childName, this);
      children := children + [child];
    }

    /** `has_child`: despite its name, whether this scope binds `key`. */
    method HasChild(key: string) returns (b: bool)
      ensures b <==> key in symbols
    {
      b := key in symbols;
    }

    /** `get_child`: the binding of `key`; `std::map::at` throws when
        there is none. */
    method GetChild(key: string) returns (r: Option<Symbol<D>>)
      ensures key in symbols ==> r == Some(symbols[key])
      ensures key !in symbols ==> r == None
    {
      if key in symbols {
        r := Some(symbols[key]);
      } else {
        r := None;
      }
    }

    /** `add_symbol`: `std::map::emplace` does not overwrite, so the first
        binding of a name stays. */
    method AddSymbol(key: string, kind: SymbolType, data: D)
      modifies this
      ensures symbols == Bind(old(symbols), Symbol(key, kind, data))
      ensures children == old(children)
    {
      if key !in symbols {
        symbols := symbols[key := Symbol(key, kind, data)];
      }
    }
  }

  /** Insertion with `emplace` semantics: a name already bound keeps its
      first binding. */
  function Bind<D>(m: map<string, Symbol<D>>, s: Symbol<D>): (r: map<string, Symbol<D>>)
    ensures r.Keys == m.Keys + {s.name}
    ensures s.name in m ==> r == m
    ensures s.name !in m ==> r[s.name] == s
    ensures forall k :: k in m ==> r[k] == m[k]
  {
    if s.name in m then m else m[s.name := s]
  }

  /** The bindings of each scope along a lookup path. */
  ghost function BindingsAlong<D>(path: seq<Table<D>>): (r: seq<map<string, Symbol<D>>>)
    reads path
    ensures |r| == |path|
    ensures forall i :: 0 <= i < |path| ==> r[i] == path[i].symbols
  {
    if path == [] then [] else [path[0].symbols] + BindingsAlong(path[1..])
  }

  /** Lexical lookup: the binding in the first scope, innermost first, that
      binds `key`. */
  function Lookup<D>(scopes: seq<map<string, Symbol<D>>>, key: string): Option<Symbol<D>>
  {
    if scopes == [] then None
    else if key in scopes[0] then Some(scopes[0][key])
    else Lookup(scopes[1..], key)
  }

  /** Lookup finds a binding exactly when some scope binds the name, and it
      returns the binding of the innermost such scope: an inner binding
      shadows every outer one. */
  lemma {:induction false} LookupInnermost<D>(scopes: seq<map<string, Symbol<D>>>, key: string)
    ensures Lookup(scopes, key).None? <==> forall i :: 0 <= i < |scopes| ==> key !in scopes[i]
    ensures Lookup(scopes, key).Some? ==>
              exists k :: 0 <= k < |scopes| && key in scopes[k] && Lookup(scopes, key) == Some(scopes[k][key]) &&
                          forall j :: 0 <= j < k ==> key !in scopes[j]
  {
    if scopes != [] && key !in scopes[0] {
      LookupInnermost(scopes[1..], key);
      if Lookup(scopes, key).Some? {
        var k :| 0 <= k < |scopes[1..]| && key in scopes[1..][k] && Lookup(scopes[1..], key) == Some(scopes[1..][k][key]) &&
                 forall j :: 0 <= j < k ==> key !in scopes[1..][j];
        assert key in scopes[k + 1] && forall j :: 0 <= j < k + 1 ==> key !in scopes[j] by {
          forall j | 0 <= j < k + 1 ensures key !in scopes[j] {
            if j > 0 { assert scopes[j] == scopes[1..][j - 1]; }
          }
        }
      }
    } else if scopes != [] {
      assert key in scopes[0];
    }
  }
}
