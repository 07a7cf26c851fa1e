/** SiteScript: which of its methods an event runs (getMethodNames,
    getEventHandler, handleEvent), and setPlaceholder. The methods' own
    effects are abstracted: for each method name, whether `this[name]` is a
    function, whether calling it throws, whether it returns a truthy value,
    and whether it leaves `event.defaultPrevented` set are parameters. */
module SiteScript {
  import opened Strings

  /** getMethodNames.list: the comma-separated method names per event type. */
  const METHOD_LIST: map<string, string> := map["DOMContentLoaded" := "setPlaceholder,showingRecentlyPosts"]

  const PLACEHOLDER: string := "Search"

  /** getMethodNames: `(getMethodNames.list[type] || '').split(',')`. */
  function GetMethodNames(eventType: string): (names: seq<string>)
    ensures |names| >= 1
    ensures forall i :: 0 <= i < |names| ==> ',' !in names[i]
  {
    Split(if eventType in METHOD_LIST then METHOD_LIST[eventType] else "", ',')
  }

  /** DOMContentLoaded names setPlaceholder, then showingRecentlyPosts. */
  lemma DomContentLoadedNames()
    ensures GetMethodNames("DOMContentLoaded") == ["setPlaceholder", "showingRecentlyPosts"]
  {
    var names := ["setPlaceholder", "showingRecentlyPosts"];
    assert Join(names, [',']) == "setPlaceholder,showingRecentlyPosts";
    SplitJoin(names, ',');
  }

  /** An event type without an entry gives the single name `''`. */
  lemma UnlistedEventTypeNames(eventType: string)
    requires eventType != "DOMContentLoaded"
    ensures GetMethodNames(eventType) == [""]
  {
  }

  /** The `map(name => this[name]).filter(typeof … === 'function')` step:
      the names that resolve to functions, in their original order. */
  function FunctionsOf(names: seq<string>, isFunction: string -> bool): (methods: seq<string>)
    ensures |methods| <= |names|
    ensures forall m :: m in methods ==> m in names && isFunction(m)
    ensures forall n :: n in names && isFunction(n) ==> n in methods
  {
    if |names| == 0 then []
    else if isFunction(names[0]) then [names[0]] + FunctionsOf(names[1..], isFunction)
    else FunctionsOf(names[1..], isFunction)
  }

  /** Filtering distributes over concatenation, so the order of the names is kept. */
  lemma {:induction false} FunctionsOfConcat(a: seq<string>, b: seq<string>, isFunction: string -> bool)
    ensures FunctionsOf(a + b, isFunction) == FunctionsOf(a, isFunction) + FunctionsOf(b, isFunction)
  {
    if |a| > 0 {
      assert (a + b)[1..] == a[1..] + b;
      FunctionsOfConcat(a[1..], b, isFunction);
    } else {
      assert a + b == b;
    }
  }

  /** The outcome of one run of the handler: the methods called, in order,
      and whether the last of them threw (which ends the run and lets the
      exception escape handleEvent). */
  datatype Run = Run(invoked: seq<string>, threw: bool)

  /** `r` with `callee` called before it. */
  function After(callee: string, r: Run): Run
  {
    Run([callee] + r.invoked, r.threw)
  }

  /** Reference definition of the handler's `some` loop: the methods that
      run, given whether `event.defaultPrevented` is already set. */
  function Invoked(methods: seq<string>, defaultPrevented: bool, throws: string -> bool,
                   returnsTruthy: string -> bool, preventsDefault: string -> bool): Run
  {
    if |methods| == 0 || defaultPrevented then Run([], false)
    else if throws(methods[0]) then Run([methods[0]], true)
    else if returnsTruthy(methods[0]) then Run([methods[0]], false)
    else After(methods[0], Invoked(methods[1..], preventsDefault(methods[0]), throws, returnsTruthy, preventsDefault))
  }

  /** What the loop promises: the methods run in order from the first; every
      one but the last returned falsy, did not throw and left the default
      alone; nothing runs once the default is prevented; the run ends in an
      exception exactly when its last method threw; and the loop stops early
      only for an exception, a truthy result or a prevented default. */
  lemma {:induction false} InvokedCharacterised(methods: seq<string>, defaultPrevented: bool,
                                                     throws: string -> bool, returnsTruthy: string -> bool,
                                                     preventsDefault: string -> bool)
    ensures var r := Invoked(methods, defaultPrevented, throws, returnsTruthy, preventsDefault).invoked;
      && |r| <= |methods| && r == methods[..|r|]
      && (forall i :: 0 <= i < |r| - 1 ==> !throws(r[i]) && !returnsTruthy(r[i]) && !preventsDefault(r[i]))
      && (defaultPrevented ==> r == [])
      && (|r| < |methods| ==>
            defaultPrevented
            || (|r| > 0 && (throws(r[|r| - 1]) || returnsTruthy(r[|r| - 1]) || preventsDefault(r[|r| - 1]))))
    ensures var run := Invoked(methods, defaultPrevented, throws, returnsTruthy, preventsDefault);
      run.threw <==> |run.invoked| > 0 && throws(run.invoked[|run.invoked| - 1])
  {
    if |methods| > 0 && !defaultPrevented && !throws(methods[0]) && !returnsTruthy(methods[0]) {
      var m := methods[0];
      InvokedCharacterised(methods[1..], preventsDefault(m), throws, returnsTruthy, preventsDefault);
      var rest := Invoked(methods[1..], preventsDefault(m), throws, returnsTruthy, preventsDefault).invoked;
      var r := [m] + rest;
      assert r == methods[..|r|] by {
        assert methods == [m] + methods[1..];
      }
      assert forall i :: 1 <= i < |r| ==> r[i] == rest[i - 1];
      if rest == [] {
        assert |r| == 1;
      } else {
        assert r[|r| - 1] == rest[|rest| - 1];
      }
    }
  }

  /** One step of the loop: the method at `i` runs when the default is not
      prevented, and ends the run if it throws or returns truthy. */
  lemma InvokedStep(methods: seq<string>, i: nat, throws: string -> bool,
                    returnsTruthy: string -> bool, preventsDefault: string -> bool)
    requires i < |methods|
    ensures var m := methods[i];
      Invoked(methods[i..], false, throws, returnsTruthy, preventsDefault) ==
        if throws(m) then Run([m], true)
        else if returnsTruthy(m) then Run([m], false)
        else After(m, Invoked(methods[i + 1..], preventsDefault(m), throws, returnsTruthy, preventsDefault))
  {
    assert methods[i..][0] == methods[i] && methods[i..][1..] == methods[i + 1..];
  }

  /** The handler returned by getEventHandler: `methods.some(m =>
      event.defaultPrevented || m.apply(this, args))`. A method that throws
      ends the loop; `threw` says that its exception leaves the handler. */
  method RunHandler(methods: seq<string>, defaultPrevented: bool, throws: string -> bool,
                    returnsTruthy: string -> bool, preventsDefault: string -> bool)
    returns (invoked: seq<string>, threw: bool)
    ensures Run(invoked, threw) == Invoked(methods, defaultPrevented, throws, returnsTruthy, preventsDefault)
  {
    invoked := [];
    threw := false;
    var prevented := defaultPrevented;
    var i := 0;
    ghost var total := Invoked(methods, defaultPrevented, throws, returnsTruthy, preventsDefault);
    ghost var remaining := total;
    assert methods[0..] == methods;
    while i < |methods|
      invariant 0 <= i <= |methods|
      invariant remaining == Invoked(methods[i..], prevented, throws, returnsTruthy, preventsDefault)
      invariant total == Run(invoked + remaining.invoked, remaining.threw)
    {
      if prevented {
        assert invoked + [] == invoked;
        return;
      }
      var callee := methods[i];
      InvokedStep(methods, i, throws, returnsTruthy, preventsDefault);
      invoked := invoked + [callee];
      if throws(callee) {
        threw := true;
        return;
      }
      var result := returnsTruthy(callee);
      if result {
        return;
      }
      prevented := preventsDefault(callee);
      remaining := Invoked(methods[i + 1..], prevented, throws, returnsTruthy, preventsDefault);
      i := i + 1;
    }
    assert methods[i..] == [];
    assert invoked + [] == invoked;
  }

  /** handleEvent: getEventHandler(event) built and applied. */
  method HandleEvent(eventType: string, defaultPrevented: bool, isFunction: string -> bool,
                     throws: string -> bool, returnsTruthy: string -> bool, preventsDefault: string -> bool)
    returns (invoked: seq<string>, threw: bool)
    ensures Run(invoked, threw) == Invoked(FunctionsOf(GetMethodNames(eventType), isFunction),
                                           defaultPrevented, throws, returnsTruthy, preventsDefault)
  {
    var methodNames := GetMethodNames(eventType);
    var methods := FunctionsOf(methodNames, isFunction);
    invoked, threw := RunHandler(methods, defaultPrevented, throws, returnsTruthy, preventsDefault);
  }

  /** On DOMContentLoaded, setPlaceholder runs and then showingRecentlyPosts,
      unless setPlaceholder throws, returns truthy or prevents the default;
      the run throws exactly when showingRecentlyPosts does. */
  lemma DomContentLoadedRunsBoth(isFunction: string -> bool, throws: string -> bool,
                                 returnsTruthy: string -> bool, preventsDefault: string -> bool)
    requires isFunction("setPlaceholder") && isFunction("showingRecentlyPosts")
    requires !throws("setPlaceholder") && !returnsTruthy("setPlaceholder") && !preventsDefault("setPlaceholder")
    ensures Invoked(FunctionsOf(GetMethodNames("DOMContentLoaded"), isFunction), false,
                    throws, returnsTruthy, preventsDefault)
            == Run(["setPlaceholder", "showingRecentlyPosts"], throws("showingRecentlyPosts"))
  {
    DomContentLoadedNames();
    var names := ["setPlaceholder", "showingRecentlyPosts"];
    assert FunctionsOf(names[1..], isFunction) == ["showingRecentlyPosts"];
    assert FunctionsOf(names, isFunction) == names;
    var last := "showingRecentlyPosts";
    assert names[1..] == [last];
    assert Invoked([last][1..], preventsDefault(last), throws, returnsTruthy, preventsDefault) == Run([], false);
    assert Invoked([last], false, throws, returnsTruthy, preventsDefault) == Run([last], throws(last));
  }

  /** An event type with no entry runs nothing and throws nothing: its only
      name, `''`, is not a method. */
  lemma UnlistedEventRunsNothing(eventType: string, defaultPrevented: bool, isFunction: string -> bool,
                                 throws: string -> bool, returnsTruthy: string -> bool,
                                 preventsDefault: string -> bool)
    requires eventType != "DOMContentLoaded" && !isFunction("")
    ensures Invoked(FunctionsOf(GetMethodNames(eventType), isFunction), defaultPrevented,
                    throws, returnsTruthy, preventsDefault) == Run([], false)
  {
    UnlistedEventTypeNames(eventType);
    assert FunctionsOf([""], isFunction) == [];
  }

  /** An input of class `search`. */
  class TextField {
    var placeholder: string

    constructor (placeholder: string)
      ensures this.placeholder == placeholder
    {
      this.placeholder := placeholder;
    }
  }

  /** setPlaceholder: every search field ends with the placeholder 'Search'. */
  method SetPlaceholder(textFields: seq<TextField>)
    modifies set f | f in textFields
    ensures forall f :: f in textFields ==> f.placeholder == PLACEHOLDER
  {
    var i := 0;
    while i < |textFields|
      invariant 0 <= i <= |textFields|
      invariant forall k :: 0 <= k < i ==> textFields[k].placeholder == PLACEHOLDER
    {
      textFields[i].placeholder := PLACEHOLDER;
      i := i + 1;
    }
  }
}
