/**
 How the command wrappers shape their parameter objects before handing them
 to `SendCommand`: `script.evaluate` and `script.callFunction` convert their
 extra keyword arguments to camelCase, `browsingContext.getTree` and
 `session.subscribe` include optional keys only when they are given.

 A Python keyword argument left at its default `None` is `JNull` here.
 */
module Params {
  import opened Wrappers
  import opened Json
  import opened Messages
  import opened CamelCase

  /** The value stored for a keyword argument: a `serializationOptions` object has its keys converted, anything else is kept. */
  function Shaped(name: string, v: Json): Json
  {
    if name == "serializationOptions" && v.JObj? then JObj(ConvertSerializationOptions(v.fields)) else v
  }

  /**
   The keyword-argument loop: each argument, in order, is stored under its
   camelCase name on top of the fixed parameters. Fixed keys keep their
   positions; new names are appended.
   */
  function ApplyKwargs(params: seq<(string, Json)>, kwargs: seq<(string, Json)>): (r: seq<(string, Json)>)
    ensures Keys(r) == Keys(params) + CamelKeys(kwargs)
    ensures UniqueKeys(params) ==> UniqueKeys(r)
    ensures |params| <= |r| && forall i :: 0 <= i < |params| ==> r[i].0 == params[i].0
    decreases |kwargs|
  {
    if kwargs == [] then params
    else
      var n := |kwargs| - 1;
      var prev := ApplyKwargs(params, kwargs[..n]);
      var k := ToCamelCase(kwargs[n].0);
      CamelKeysSnoc(kwargs);
      PutUnique(prev, k, Shaped(k, kwargs[n].1));
      Put(prev, k, Shaped(k, kwargs[n].1))
  }

  /** The last keyword argument is written on top of the others. */
  lemma ApplyKwargsSnoc(params: seq<(string, Json)>, kwargs: seq<(string, Json)>)
    requires kwargs != []
    ensures var last := kwargs[|kwargs| - 1];
            var k := ToCamelCase(last.0);
            ApplyKwargs(params, kwargs) == Put(ApplyKwargs(params, kwargs[..|kwargs| - 1]), k, Shaped(k, last.1))
  {
  }

  /** A name the last keyword argument does not convert to reads as before it. */
  lemma ApplyKwargsOther(params: seq<(string, Json)>, kwargs: seq<(string, Json)>, k: string)
    requires kwargs != [] && k != ToCamelCase(kwargs[|kwargs| - 1].0)
    ensures Get(ApplyKwargs(params, kwargs), k) == Get(ApplyKwargs(params, kwargs[..|kwargs| - 1]), k)
  {
    var n := |kwargs| - 1;
    var kn := ToCamelCase(kwargs[n].0);
    ApplyKwargsSnoc(params, kwargs);
    PutGet(ApplyKwargs(params, kwargs[..n]), kn, Shaped(kn, kwargs[n].1), k);
  }

  /** The last keyword argument's name holds its shaped value. */
  lemma ApplyKwargsLast(params: seq<(string, Json)>, kwargs: seq<(string, Json)>)
    requires kwargs != []
    ensures var last := kwargs[|kwargs| - 1];
            var k := ToCamelCase(last.0);
            Get(ApplyKwargs(params, kwargs), k) == Some(Shaped(k, last.1))
  {
    var n := |kwargs| - 1;
    var kn := ToCamelCase(kwargs[n].0);
    ApplyKwargsSnoc(params, kwargs);
    PutGet(ApplyKwargs(params, kwargs[..n]), kn, Shaped(kn, kwargs[n].1), kn);
  }

  /** A fixed parameter no keyword argument converts to keeps its value. */
  lemma {:induction false} ApplyKwargsKeepsOthers(params: seq<(string, Json)>, kwargs: seq<(string, Json)>, k: string)
    requires k !in CamelKeys(kwargs)
    ensures Get(ApplyKwargs(params, kwargs), k) == Get(params, k)
    decreases |kwargs|
  {
    if kwargs != [] {
      CamelKeysSnoc(kwargs);
      ApplyKwargsOther(params, kwargs, k);
      ApplyKwargsKeepsOthers(params, kwargs[..|kwargs| - 1], k);
    }
  }

  /**
   The last keyword argument converting to a name decides its value: the
   argument's value, with `serializationOptions` keys converted when it is an object.
   */
  lemma {:induction false} ApplyKwargsLastWins(params: seq<(string, Json)>, kwargs: seq<(string, Json)>, j: int)
    requires 0 <= j < |kwargs| && LastOfItsName(kwargs, j)
    ensures var k := ToCamelCase(kwargs[j].0);
            Get(ApplyKwargs(params, kwargs), k) == Some(Shaped(k, kwargs[j].1))
    decreases |kwargs|
  {
    var n := |kwargs| - 1;
    if j == n {
      ApplyKwargsLast(params, kwargs);
    } else {
      var init := kwargs[..n];
      assert init[j] == kwargs[j];
      LastOfItsNamePrefix(kwargs, j);
      ApplyKwargsLastWins(params, init, j);
      ApplyKwargsOther(params, kwargs, ToCamelCase(kwargs[j].0));
    }
  }

  /** `ScriptModule.evaluate`'s parameter object. */
  function EvaluateParams(expression: Json, target: Json, awaitPromise: Json, kwargs: seq<(string, Json)>): (r: seq<(string, Json)>)
    ensures UniqueKeys(r)
    ensures |r| >= 3 && r[0].0 == "expression" && r[1].0 == "target" && r[2].0 == "awaitPromise"
    ensures Keys(r) == {"expression", "target", "awaitPromise"} + CamelKeys(kwargs)
  {
    var base := [("expression", expression), ("target", target), ("awaitPromise", awaitPromise)];
    assert Keys(base) == {"expression", "target", "awaitPromise"} by {
      assert base[0].0 == "expression" && base[1].0 == "target" && base[2].0 == "awaitPromise";
    }
    ApplyKwargs(base, kwargs)
  }

  /** The fixed parameters of `evaluate` hold the given values unless a keyword argument converts to their name. */
  lemma EvaluateFixedValues(expression: Json, target: Json, awaitPromise: Json, kwargs: seq<(string, Json)>)
    ensures var r := EvaluateParams(expression, target, awaitPromise, kwargs);
            && ("expression" !in CamelKeys(kwargs) ==> Get(r, "expression") == Some(expression))
            && ("target" !in CamelKeys(kwargs) ==> Get(r, "target") == Some(target))
            && ("awaitPromise" !in CamelKeys(kwargs) ==> Get(r, "awaitPromise") == Some(awaitPromise))
  {
    var base := [("expression", expression), ("target", target), ("awaitPromise", awaitPromise)];
    if "expression" !in CamelKeys(kwargs) {
      ApplyKwargsKeepsOthers(base, kwargs, "expression");
    }
    if "target" !in CamelKeys(kwargs) {
      ApplyKwargsKeepsOthers(base, kwargs, "target");
    }
    if "awaitPromise" !in CamelKeys(kwargs) {
      ApplyKwargsKeepsOthers(base, kwargs, "awaitPromise");
    }
  }

  /** The fixed part of `call_function`'s parameters, before the keyword arguments. */
  function CallFunctionBase(functionDeclaration: Json, target: Json, arguments: Json, awaitPromise: Json): (r: seq<(string, Json)>)
    ensures UniqueKeys(r)
    ensures |r| >= 3 && r[0].0 == "functionDeclaration" && r[1].0 == "target" && r[2].0 == "awaitPromise"
    ensures Get(r, "functionDeclaration") == Some(functionDeclaration)
    ensures Get(r, "target") == Some(target)
    ensures Get(r, "awaitPromise") == Some(awaitPromise)
    ensures Get(r, "arguments") == if Truthy(arguments) then Some(arguments) else None
  {
    if Truthy(arguments) then
      var r := [("functionDeclaration", functionDeclaration), ("target", target), ("awaitPromise", awaitPromise), ("arguments", arguments)];
      assert r[0].0 == "functionDeclaration" && r[1].0 == "target" && r[2].0 == "awaitPromise" && r[3].0 == "arguments";
      r
    else
      var r := [("functionDeclaration", functionDeclaration), ("target", target), ("awaitPromise", awaitPromise)];
      assert Keys(r) == {"functionDeclaration", "target", "awaitPromise"} by {
        assert r[0].0 == "functionDeclaration" && r[1].0 == "target" && r[2].0 == "awaitPromise";
      }
      r
  }

  /** `ScriptModule.call_function`'s parameter object: `arguments` is included only when truthy. */
  function CallFunctionParams(functionDeclaration: Json, target: Json, arguments: Json, awaitPromise: Json,
                              kwargs: seq<(string, Json)>): (r: seq<(string, Json)>)
    ensures UniqueKeys(r)
    ensures |r| >= 3 && r[0].0 == "functionDeclaration" && r[1].0 == "target" && r[2].0 == "awaitPromise"
    ensures "arguments" !in CamelKeys(kwargs) ==> ("arguments" in Keys(r) <==> Truthy(arguments))
  {
    var base := CallFunctionBase(functionDeclaration, target, arguments, awaitPromise);
    ApplyKwargs(base, kwargs)
  }

  /**
   The fixed parameters of `call_function` hold the given values, and
   `arguments` its value when truthy, unless a keyword argument converts to their name.
   */
  lemma CallFunctionFixedValues(functionDeclaration: Json, target: Json, arguments: Json, awaitPromise: Json,
                                kwargs: seq<(string, Json)>)
    ensures var r := CallFunctionParams(functionDeclaration, target, arguments, awaitPromise, kwargs);
            && ("functionDeclaration" !in CamelKeys(kwargs) ==> Get(r, "functionDeclaration") == Some(functionDeclaration))
            && ("target" !in CamelKeys(kwargs) ==> Get(r, "target") == Some(target))
            && ("awaitPromise" !in CamelKeys(kwargs) ==> Get(r, "awaitPromise") == Some(awaitPromise))
            && ("arguments" !in CamelKeys(kwargs) ==> Get(r, "arguments") == if Truthy(arguments) then Some(arguments) else None)
  {
    var base := CallFunctionBase(functionDeclaration, target, arguments, awaitPromise);
    if "functionDeclaration" !in CamelKeys(kwargs) {
      ApplyKwargsKeepsOthers(base, kwargs, "functionDeclaration");
    }
    if "target" !in CamelKeys(kwargs) {
      ApplyKwargsKeepsOthers(base, kwargs, "target");
    }
    if "awaitPromise" !in CamelKeys(kwargs) {
      ApplyKwargsKeepsOthers(base, kwargs, "awaitPromise");
    }
    if "arguments" !in CamelKeys(kwargs) {
      ApplyKwargsKeepsOthers(base, kwargs, "arguments");
    }
  }

  /** `BrowsingContextModule.get_tree`'s parameter object: `root` and `maxDepth` only when not `None`. */
  function GetTreeParams(root: Json, maxDepth: Json): (r: seq<(string, Json)>)
    ensures UniqueKeys(r)
    ensures Keys(r) <= {"root", "maxDepth"}
    ensures Get(r, "root") == if root != JNull then Some(root) else None
    ensures Get(r, "maxDepth") == if maxDepth != JNull then Some(maxDepth) else None
    ensures root != JNull && maxDepth != JNull ==> r[0].0 == "root"
  {
    var withRoot := if root != JNull then [("root", root)] else [];
    withRoot + if maxDepth != JNull then [("maxDepth", maxDepth)] else []
  }

  /** What awaiting a command gives its caller. */
  datatype Reply =
    | Returned(value: Json)
    | Raised(code: Json, message: Json, stacktrace: Json)
    | NoGetMethod

  /**
   `get_tree`'s return value: the result's `contexts`, or `[]` when absent. An
   error response raises; a result that is not an object has no `.get`.
   */
  function GetTreeContexts(o: Outcome): (r: Reply)
    ensures r.Returned? <==> o.Success? && o.result.JObj?
    ensures o.Error? ==> r == Raised(o.code, o.message, o.stacktrace)
    ensures r.Returned? && "contexts" in Keys(o.result.fields) ==> (("contexts", r.value) in o.result.fields)
    ensures r.Returned? && "contexts" !in Keys(o.result.fields) ==> r.value == JArr([])
  {
    match o
    case Error(code, message, stacktrace) => Raised(code, message, stacktrace)
    case Success(result) =>
      if result.JObj? then Returned(Get(result.fields, "contexts").GetOr(JArr([]))) else NoGetMethod
  }

  /** `SessionModule.subscribe`'s parameter object: `events` always, the context lists only when truthy. */
  function SubscribeParams(events: Json, contexts: Json, userContexts: Json): (r: seq<(string, Json)>)
    ensures UniqueKeys(r)
    ensures |r| >= 1 && r[0] == ("events", events)
    ensures Keys(r) <= {"events", "contexts", "userContexts"}
    ensures Get(r, "contexts") == if Truthy(contexts) then Some(contexts) else None
    ensures Get(r, "userContexts") == if Truthy(userContexts) then Some(userContexts) else None
  {
    var withContexts := [("events", events)] + if Truthy(contexts) then [("contexts", contexts)] else [];
    var tail := if Truthy(userContexts) then [("userContexts", userContexts)] else [];
    assert "userContexts" !in Keys(withContexts);
    GetAppend(withContexts, tail, "userContexts");
    withContexts + tail
  }
}
