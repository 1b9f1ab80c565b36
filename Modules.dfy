/**
 * Modules and the registry of loaded modules (lang.reflect.Module).
 *
 * The source keeps the registry in a static array, $registered, mapping a
 * module's name to the module; register and remove change it in place and
 * call the module's initialize and finalize hooks.  Here the static state is
 * an object of class Registry, and the hook calls made on modules are
 * recorded, in order, in its field hooks.
 */
module Modules {
  import opened Wrappers

  /** The class loader a module was loaded by; only its string form is used. */
  datatype ClassLoader = ClassLoader(description: string)

  /** The name getClassName() reports for a module of the base class. */
  const ClassName: string := "lang.reflect.Module"

  class Module {
    const name: string
    const classLoader: ClassLoader

    constructor (name: string, classLoader: ClassLoader)
      ensures this.name == name && this.classLoader == classLoader
    {
      this.name := name;
      this.classLoader := classLoader;
    }

    /**
     * equals(): the other value is a module with the same name; the class
     * loader plays no part.  A null argument stands for any value that is
     * not a module.
     */
    predicate Equals(cmp: Module?)
      ensures cmp == this ==> Equals(cmp)
      ensures cmp == null ==> !Equals(cmp)
      ensures cmp != null && cmp.name != name ==> !Equals(cmp)
    {
      cmp != null && cmp.name == name
    }

    /** toString(): the class name, then the name and the loader's string form in angle brackets. */
    function ToString(): (r: string)
      ensures |r| == |ClassName| + |name| + |classLoader.description| + 3
      ensures r[..|ClassName| + 1] == ClassName + "<"
      ensures r[|ClassName| + 1..|ClassName| + 1 + |name|] == name
      ensures r[|r| - 2 - |classLoader.description|..] == "@" + classLoader.description + ">"
    {
      var r := ClassName + "<" + name + "@" + classLoader.description + ">";
      assert r == (ClassName + "<" + name) + ("@" + classLoader.description + ">");
      r
    }
  }

  /** Two modules are equal exactly when their names are, so equality is an equivalence. */
  lemma EqualsIsEquivalence(a: Module, b: Module, c: Module)
    ensures a.Equals(a)
    ensures a.Equals(b) <==> b.Equals(a)
    ensures a.Equals(b) && b.Equals(c) ==> a.Equals(c)
    ensures !a.Equals(null)
  {
  }

  /** A lifecycle hook called on a module. */
  datatype Hook = Initialize(target: Module) | Finalize(target: Module)

  datatype Error = ElementNotFoundException(message: string)

  class Registry {
    /** The registered modules, by name. */
    var registered: map<string, Module>
    /** The initialize and finalize calls made so far, oldest first. */
    var hooks: seq<Hook>

    /** Every module is registered under its own name. */
    ghost predicate Valid()
      reads this
    {
      forall n :: n in registered ==> registered[n].name == n
    }

    constructor ()
      ensures Valid() && registered == map[] && hooks == []
    {
      registered := map[];
      hooks := [];
    }

    /**
     * register(): stores the module under its name, replacing any module
     * registered under that name without finalizing it, then initializes it
     * once; returns the module.
     */
    method Register(m: Module) returns (r: Module)
      requires Valid()
      modifies this
      ensures Valid()
      ensures registered == old(registered)[m.name := m]
      ensures hooks == old(hooks) + [Initialize(m)]
      ensures r == m
    {
      registered := registered[m.name := m];
      hooks := hooks + [Initialize(m)];
      r := m;
    }

    /**
     * remove(): finalizes the module, then drops whatever is registered under
     * its name (which may be another module of the same name); a name that is
     * not registered is no error.
     */
    method Remove(m: Module)
      requires Valid()
      modifies this
      ensures Valid()
      ensures registered == old(registered) - {m.name}
      ensures hooks == old(hooks) + [Finalize(m)]
    {
      hooks := hooks + [Finalize(m)];
      registered := registered - {m.name};
    }

    /** loaded(): whether a module is registered under the name. */
    method Loaded(name: string) returns (b: bool)
      ensures b <==> name in registered
    {
      b := name in registered;
    }

    /** forName(): the module registered under the name, or ElementNotFoundException. */
    method ForName(name: string) returns (r: Result<Module, Error>)
      requires Valid()
      ensures name in registered <==> r.Ok?
      ensures r.Ok? ==> r.value == registered[name] && r.value.name == name
      ensures r.Err? ==> r.error == ElementNotFoundException("No module \"" + name + "\" declared")
    {
      if name !in registered {
        return Err(ElementNotFoundException("No module \"" + name + "\" declared"));
      }
      return Ok(registered[name]);
    }
  }

  /** How often a hook list initializes a module. */
  function Initializations(hooks: seq<Hook>, m: Module): (k: nat)
    ensures k <= |hooks|
  {
    if hooks == [] then 0
    else Initializations(hooks[..|hooks| - 1], m) + (if hooks[|hooks| - 1] == Initialize(m) then 1 else 0)
  }

  /** How often a hook list finalizes a module. */
  function Finalizations(hooks: seq<Hook>, m: Module): (k: nat)
    ensures k <= |hooks|
  {
    if hooks == [] then 0
    else Finalizations(hooks[..|hooks| - 1], m) + (if hooks[|hooks| - 1] == Finalize(m) then 1 else 0)
  }

  /**
   * Registering a module, then another under the same name: the second
   * replaces the first, each was initialized once and neither was finalized.
   */
  method ReplaceWithoutFinalize(loader: ClassLoader) returns (first: Module, second: Module, found: Result<Module, Error>, hooks: seq<Hook>)
    ensures first != second && first.Equals(second)
    ensures found == Ok(second)
    ensures Initializations(hooks, first) == 1 && Initializations(hooks, second) == 1
    ensures Finalizations(hooks, first) == 0 && Finalizations(hooks, second) == 0
  {
    var registry := new Registry();
    first := new Module("test", loader);
    second := new Module("test", loader);
    var _ := registry.Register(first);
    var _ := registry.Register(second);
    found := registry.ForName("test");
    hooks := registry.hooks;
    assert hooks == [Initialize(first), Initialize(second)];
    assert hooks[..1] == [Initialize(first)];
  }

  /**
   * Register, then remove: the module is initialized and finalized once
   * each, in that order, and afterwards it is neither loaded nor found.
   */
  method RegisterThenRemove(name: string, loader: ClassLoader) returns (m: Module, loaded: bool, found: Result<Module, Error>, hooks: seq<Hook>)
    ensures hooks == [Initialize(m), Finalize(m)]
    ensures !loaded
    ensures found == Err(ElementNotFoundException("No module \"" + name + "\" declared"))
  {
    var registry := new Registry();
    m := new Module(name, loader);
    var _ := registry.Register(m);
    registry.Remove(m);
    loaded := registry.Loaded(name);
    found := registry.ForName(name);
    hooks := registry.hooks;
  }

  /**
   * Removing a module that was never registered finalizes it and leaves the
   * registry as it was.
   */
  method RemoveUnregistered(loader: ClassLoader) returns (m: Module, before: map<string, Module>, after: map<string, Module>, hooks: seq<Hook>)
    ensures m.name == "absent" && m.name !in before
    ensures after == before
    ensures hooks == [Finalize(m)]
  {
    var registry := new Registry();
    var other := new Module("other", loader);
    var _ := registry.Register(other);
    m := new Module("absent", loader);
    before := registry.registered;
    var hooksBefore := registry.hooks;
    registry.Remove(m);
    after := registry.registered;
    hooks := registry.hooks[|hooksBefore|..];
  }
}
