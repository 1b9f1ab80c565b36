/**
 * A deferred invocation handler (util.AbstractDeferredInvokationHandler):
 * a proxy's invocation handler that creates its delegate lazily.  The first
 * invoke() calls the subclass's initialize(); a delegate it returns is kept
 * and every invocation is passed on to it.  When initialize() throws or
 * returns null, invoke() raises DeferredInitializationException naming the
 * invoked method, nothing is kept, and the next invoke() tries again.
 *
 * The delegate is a function from a method name and arguments to what the
 * call returns or throws; initialize() is given as the sequence of its
 * successive results, so the n-th call to it (counting from 0) yields
 * script(n).
 */
module DeferredInvocation {
  import opened Wrappers

  /** The values passed to and returned from delegate methods. */
  datatype Value = IntValue(i: int) | StringValue(s: string) | BoolValue(b: bool) | ListValue(items: seq<Value>) | NullValue

  datatype Exception = Exception(className: string, message: string, cause: Option<Exception>)

  /** What a call does: return a value or throw. */
  datatype Outcome = Returned(value: Value) | Threw(exception: Exception)

  /** The delegate: what calling a method with arguments on it does. */
  datatype Delegate = Delegate(call: (string, seq<Value>) -> Outcome)

  /** What a call to initialize() does. */
  datatype Initialization = Initialized(delegate: Delegate) | ReturnedNull | InitializeThrew(exception: Exception)

  const DeferredInitializationException: string := "util.DeferredInitializationException"

  /** The handler's state: the delegate, once there is one, and how often initialize() was called. */
  datatype HandlerState = HandlerState(instance: Option<Delegate>, initCalls: nat)

  /**
   * invoke(): the new state and the outcome of one invocation.  A kept
   * delegate leaves the state as it is; otherwise initialize() is called
   * once more, and when it yields no delegate none is kept and the outcome
   * is a DeferredInitializationException naming the method.
   */
  function Invocation(s: HandlerState, script: nat -> Initialization, name: string, args: seq<Value>): (r: (HandlerState, Outcome))
    ensures s.instance.Some? ==> r.0 == s
    ensures s.instance.None? ==> r.0.initCalls == s.initCalls + 1
    ensures r.0.instance.Some? ==> r.1 == r.0.instance.value.call(name, args)
    ensures r.0.instance.None? ==>
      && r.1.Threw? && r.1.exception.className == DeferredInitializationException && r.1.exception.message == name
  {
    match s.instance
    case Some(d) => (s, d.call(name, args))
    case None =>
      match script(s.initCalls)
      case Initialized(d) => (HandlerState(Some(d), s.initCalls + 1), d.call(name, args))
      case ReturnedNull =>
        (HandlerState(None, s.initCalls + 1), Threw(Exception(DeferredInitializationException, name, None)))
      case InitializeThrew(e) =>
        (HandlerState(None, s.initCalls + 1), Threw(Exception(DeferredInitializationException, name, Some(e))))
  }

  /** Invocations one after another: the final state and every outcome, in order. */
  function Run(s: HandlerState, script: nat -> Initialization, calls: seq<(string, seq<Value>)>): (r: (HandlerState, seq<Outcome>))
    ensures |r.1| == |calls|
    decreases |calls|
  {
    if calls == [] then (s, [])
    else
      var (s', o) := Invocation(s, script, calls[0].0, calls[0].1);
      var (t, os) := Run(s', script, calls[1..]);
      (t, [o] + os)
  }

  /**
   * With a delegate in place, an invocation calls the method on it with the
   * arguments and yields exactly what that call yields, a thrown exception
   * included, and calls initialize() no more.
   */
  lemma DelegatePassesThrough(s: HandlerState, script: nat -> Initialization, name: string, args: seq<Value>)
    requires s.instance.Some?
    ensures Invocation(s, script, name, args).0 == s
    ensures Invocation(s, script, name, args).1 == s.instance.value.call(name, args)
  {
  }

  /**
   * Without a delegate, an invocation calls initialize() once; when it
   * yields a delegate that is kept and the method is called on it,
   * otherwise nothing is kept and the invocation throws
   * DeferredInitializationException whose message is the method name.
   */
  lemma FirstInvocation(s: HandlerState, script: nat -> Initialization, name: string, args: seq<Value>)
    requires s.instance.None?
    ensures var (t, o) := Invocation(s, script, name, args);
      && t.initCalls == s.initCalls + 1
      && (script(s.initCalls).Initialized? ==>
            t.instance == Some(script(s.initCalls).delegate) && o == script(s.initCalls).delegate.call(name, args))
      && (!script(s.initCalls).Initialized? ==>
            t.instance.None? && o.Threw?
            && o.exception.className == DeferredInitializationException && o.exception.message == name)
  {
  }

  /** Once a delegate is kept, any further invocations keep it and never call initialize() again. */
  lemma {:induction false} DelegateIsKept(s: HandlerState, script: nat -> Initialization, calls: seq<(string, seq<Value>)>)
    requires s.instance.Some?
    ensures Run(s, script, calls).0 == s
    ensures forall k :: 0 <= k < |calls| ==> Run(s, script, calls).1[k] == s.instance.value.call(calls[k].0, calls[k].1)
    decreases |calls|
  {
    if calls != [] {
      DelegateIsKept(s, script, calls[1..]);
      var os := Run(s, script, calls).1;
      forall k | 0 <= k < |calls| ensures os[k] == s.instance.value.call(calls[k].0, calls[k].1) {
        if k > 0 {
          assert calls[1..][k - 1] == calls[k];
        }
      }
    }
  }

  /**
   * initialize() is called once per invocation until it first yields a
   * delegate: a run of n invocations from a handler without one calls it
   * as many times as it takes, at most n.
   */
  lemma {:induction false} InitializeCalls(s: HandlerState, script: nat -> Initialization, calls: seq<(string, seq<Value>)>)
    requires s.instance.None?
    ensures var t := Run(s, script, calls).0;
      && s.initCalls <= t.initCalls <= s.initCalls + |calls|
      && (forall k :: s.initCalls <= k < t.initCalls - 1 ==> !script(k).Initialized?)
      && (t.instance.None? ==> t.initCalls == s.initCalls + |calls| && forall k :: s.initCalls <= k < t.initCalls ==> !script(k).Initialized?)
      && (t.instance.Some? ==> t.initCalls > s.initCalls && script(t.initCalls - 1).Initialized? && t.instance == Some(script(t.initCalls - 1).delegate))
    decreases |calls|
  {
    if calls != [] {
      var s' := Invocation(s, script, calls[0].0, calls[0].1).0;
      if s'.instance.Some? {
        DelegateIsKept(s', script, calls[1..]);
      } else {
        InitializeCalls(s', script, calls[1..]);
      }
    }
  }

  /** The handler object: the kept delegate and the calls made to initialize(). */
  class Handler {
    var instance: Option<Delegate>
    var initCalls: nat
    const script: nat -> Initialization

    constructor (script: nat -> Initialization)
      ensures instance == None && initCalls == 0 && this.script == script
    {
      instance := None;
      initCalls := 0;
      this.script := script;
    }

    function State(): HandlerState
      reads this
    {
      HandlerState(instance, initCalls)
    }

    method Invoke(name: string, args: seq<Value>) returns (r: Outcome)
      modifies this
      ensures (State(), r) == Invocation(old(State()), script, name, args)
    {
      if instance.None? {
        var init := script(initCalls);
        initCalls := initCalls + 1;
        match init
        case Initialized(d) =>
          instance := Some(d);
        case ReturnedNull =>
          return Threw(Exception(DeferredInitializationException, name, None));
        case InitializeThrew(e) =>
          return Threw(Exception(DeferredInitializationException, name, Some(e)));
      }
      r := instance.value.call(name, args);
    }
  }

  // ---------------------------------------------------------------------
  // The unit test's handlers

  const IllegalStateException: string := "lang.IllegalStateException"

  /** A runnable whose run() returns its arguments. */
  const Echo: Delegate := Delegate((m: string, args: seq<Value>) => Returned(ListValue(args)))

  /** A runnable whose run() throws IllegalStateException with its first argument as message. */
  const Throwing: Delegate := Delegate((m: string, args: seq<Value>) =>
    Threw(Exception(IllegalStateException, if |args| > 0 && args[0].StringValue? then args[0].s else "", None)))

  /** A runnable whose run() returns true. */
  const True: Delegate := Delegate((m: string, args: seq<Value>) => Returned(BoolValue(true)))

  /** echo_runnable_invokation */
  method EchoRunnableInvocation() returns (r: Outcome)
    ensures r == Returned(ListValue([IntValue(1), IntValue(2), StringValue("Test")]))
  {
    var handler := new Handler(n => Initialized(Echo));
    r := handler.Invoke("run", [IntValue(1), IntValue(2), StringValue("Test")]);
  }

  /** throwing_runnable_invokation */
  method ThrowingRunnableInvocation() returns (r: Outcome)
    ensures r == Threw(Exception(IllegalStateException, "Test", None))
  {
    var handler := new Handler(n => Initialized(Throwing));
    r := handler.Invoke("run", [StringValue("Test")]);
  }

  /** initialize_returns_null */
  method InitializeReturnsNull() returns (r: Outcome)
    ensures r.Threw? && r.exception.className == DeferredInitializationException && r.exception.message == "run"
  {
    var handler := new Handler(n => ReturnedNull);
    r := handler.Invoke("run", []);
  }

  /** initialize_throws_exception */
  method InitializeThrowsException() returns (r: Outcome)
    ensures r.Threw? && r.exception.className == DeferredInitializationException && r.exception.message == "run"
    ensures r.exception.cause == Some(Exception(IllegalStateException, "Cannot initialize yet", None))
  {
    var handler := new Handler(n => InitializeThrew(Exception(IllegalStateException, "Cannot initialize yet", None)));
    r := handler.Invoke("run", []);
  }

  /** initialize_not_called_again_after_success: a second call to initialize() would throw. */
  method InitializeNotCalledAgainAfterSuccess() returns (first: Outcome, second: Outcome)
    ensures first == Returned(BoolValue(true)) && second == Returned(BoolValue(true))
  {
    var handler := new Handler(n => if n == 0 then Initialized(True)
                                    else InitializeThrew(Exception(IllegalStateException, "Initialization called again", None)));
    first := handler.Invoke("run", []);
    second := handler.Invoke("run", []);
  }

  /** initialize_called_again_after_failure */
  method InitializeCalledAgainAfterFailure() returns (first: Outcome, second: Outcome)
    ensures first.Threw? && first.exception.className == DeferredInitializationException
    ensures second == Returned(BoolValue(true))
  {
    var handler := new Handler(n => if n == 0 then InitializeThrew(Exception(IllegalStateException, "Error initializing", None))
                                    else Initialized(True));
    first := handler.Invoke("run", []);
    second := handler.Invoke("run", []);
  }
}
