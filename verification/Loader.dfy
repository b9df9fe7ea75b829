/** The import worklist of CatVM::load_module: src/vm/CatVM.cpp:102-148. The text of a module and its
    parser stand for one function from names to parsed modules; a name without text is missing. */
module Loader {
  datatype Option<T> = None | Some(value: T)

  /** A parsed module: the names of the modules it imports. */
  datatype Module = Module(name: string, imports: seq<string>)

  /** A module that has not been loaded imports `y`, which has not been loaded either. */
  ghost predicate Leads(texts: map<string, Module>, loaded: set<string>, x: string, y: string) {
    x !in loaded && y !in loaded && x in texts && y in texts[x].imports
  }

  ghost predicate ClosedUnder(texts: map<string, Module>, loaded: set<string>, T: set<string>) {
    forall x, y :: x in T && Leads(texts, loaded, x, y) ==> y in T
  }

  /** A chain of imports through modules that have not been loaded. */
  ghost predicate ImportPath(texts: map<string, Module>, loaded: set<string>, path: seq<string>) {
    path != [] && path[0] !in loaded && forall i :: 0 <= i < |path| - 1 ==> Leads(texts, loaded, path[i], path[i + 1])
  }

  ghost predicate Reached(texts: map<string, Module>, loaded: set<string>, name: string, x: string) {
    exists path :: ImportPath(texts, loaded, path) && path[0] == name && path[|path| - 1] == x
  }

  /** A path from a member of a closed set stays in it. */
  lemma {:induction false} PathInside(texts: map<string, Module>, loaded: set<string>, path: seq<string>,
                                      T: set<string>)
    requires ImportPath(texts, loaded, path) && path[0] in T && ClosedUnder(texts, loaded, T)
    ensures path[|path| - 1] in T
  {
    if |path| > 1 {
      var init := path[..|path| - 1];
      forall i | 0 <= i < |init| - 1 ensures Leads(texts, loaded, init[i], init[i + 1]) {
        assert Leads(texts, loaded, path[i], path[i + 1]);
      }
      PathInside(texts, loaded, init, T);
      assert Leads(texts, loaded, path[|path| - 2], path[|path| - 2 + 1]);
    }
  }

  lemma ReachedStep(texts: map<string, Module>, loaded: set<string>, name: string, x: string, y: string)
    requires Reached(texts, loaded, name, x) && Leads(texts, loaded, x, y)
    ensures Reached(texts, loaded, name, y)
  {
    var path :| ImportPath(texts, loaded, path) && path[0] == name && path[|path| - 1] == x;
    var longer := path + [y];
    assert ImportPath(texts, loaded, longer) by {
      forall i | 0 <= i < |longer| - 1 ensures Leads(texts, loaded, longer[i], longer[i + 1]) {
        if i < |path| - 1 { assert Leads(texts, loaded, path[i], path[i + 1]); }
      }
    }
    assert longer[0] == name && longer[|longer| - 1] == y;
  }

  lemma ReachedSelf(texts: map<string, Module>, loaded: set<string>, name: string)
    requires name !in loaded
    ensures Reached(texts, loaded, name, name)
  {
    var path := [name];
    assert ImportPath(texts, loaded, path) && path[0] == name && path[|path| - 1] == name;
  }

  /** Whatever a loaded module imports is loaded. */
  ghost predicate ImportsLoaded(loaded: map<string, Module>) {
    forall x, y :: x in loaded && y in loaded[x].imports ==> y in loaded
  }

  ghost predicate AllKnown(texts: map<string, Module>, loaded: set<string>, name: string) {
    forall x :: Reached(texts, loaded, name, x) ==> x in texts
  }

  class CatVM {
    var loadedModules: map<string, Module>
    var preLoaded: map<string, Module>

    constructor ()
      ensures loadedModules == map[] && preLoaded == map[]
    {
      loadedModules, preLoaded := map[], map[];
    }

    /** What has been loaded in this call, and what is still to be looked at. */
    ghost predicate Loading(before: map<string, Module>, name: string, pending: set<string>,
                            loaded: set<string>) reads this {
      && loadedModules.Keys == before.Keys + loaded && loaded !! before.Keys && loaded <= preLoaded.Keys
      && (forall x :: x in before ==> loadedModules[x] == before[x])
      && (forall x :: x in loaded ==> loadedModules[x] == preLoaded[x] && Reached(preLoaded, before.Keys, name, x))
      && (forall x, y :: x in loaded && y in preLoaded[x].imports ==> y in loadedModules || y in pending)
      && (forall x :: x in pending && x !in before ==> Reached(preLoaded, before.Keys, name, x))
      && (name in loadedModules || name in pending)
    }

    /** The worklist. On success the new modules are exactly those reached from `name` through modules
        that had not been loaded; it fails exactly if one of them is missing. Nothing is returned for a
        module that had been loaded before. */
    method LoadImports(name: string) returns (ok: bool, target: Option<Module>, loaded: set<string>)
      modifies this`loadedModules
      ensures ok <==> AllKnown(preLoaded, old(loadedModules).Keys, name)
      ensures forall x :: x in old(loadedModules) ==> x in loadedModules && loadedModules[x] == old(loadedModules)[x]
      ensures loadedModules.Keys == old(loadedModules).Keys + loaded && loaded !! old(loadedModules).Keys
      ensures forall x :: x in loaded ==>
            x in preLoaded && loadedModules[x] == preLoaded[x] && Reached(preLoaded, old(loadedModules).Keys, name, x)
      ensures ok ==> forall x :: Reached(preLoaded, old(loadedModules).Keys, name, x) ==> x in loaded
      ensures ok && ImportsLoaded(old(loadedModules)) ==> ImportsLoaded(loadedModules)
      ensures ok ==>
            name in loadedModules && target == if name in old(loadedModules) then None else Some(preLoaded[name])
    {
      ghost var before := loadedModules;
      var pending := {name};
      var first := true;
      ok, target, loaded := true, None, {};
      if name !in before { ReachedSelf(preLoaded, before.Keys, name); }
      while pending != {}
        invariant Loading(before, name, pending, loaded)
        invariant first ==> target == None && loaded == {} && pending == (if name in before then pending else {name})
        invariant !first ==> name !in before && name in preLoaded && target == Some(preLoaded[name])
        decreases preLoaded.Keys - loadedModules.Keys, pending
      {
        var current :| current in pending;
        if current in loadedModules {
          pending := pending - {current};
          continue;
        }
        if current !in preLoaded {
          Unknown(preLoaded, before.Keys, name, current);
          return false, None, loaded;
        }
        var mod := preLoaded[current];
        if first {
          target := Some(mod);
          first := false;
        }
        loaded := loaded + {current};
        ghost var todo := preLoaded.Keys - loadedModules.Keys;
        loadedModules := loadedModules[current := mod];
        assert preLoaded.Keys - loadedModules.Keys == todo - {current} && current in todo;
        pending := pending - {current} + set y | y in mod.imports;
        forall y | y in mod.imports && y !in before ensures Reached(preLoaded, before.Keys, name, y) {
          ReachedStep(preLoaded, before.Keys, name, current, y);
        }
      }
      forall x | Reached(preLoaded, before.Keys, name, x)
        ensures x in loaded
      {
        LoadedAll(preLoaded, before.Keys, loaded, name, x);
      }
    }
  }

  lemma Unknown(texts: map<string, Module>, loaded: set<string>, name: string, x: string)
    requires Reached(texts, loaded, name, x) && x !in texts
    ensures !AllKnown(texts, loaded, name)
  {
  }

  lemma LoadedAll(texts: map<string, Module>, before: set<string>, loaded: set<string>, name: string, x: string)
    requires name in before || name in loaded
    requires forall x, y :: x in loaded && x in texts && y in texts[x].imports ==> y in before || y in loaded
    requires Reached(texts, before, name, x)
    ensures x in loaded
  {
    var path :| ImportPath(texts, before, path) && path[0] == name && path[|path| - 1] == x;
    PathInside(texts, before, path, loaded);
  }
}
