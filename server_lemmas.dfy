/**
 * Properties of the router in `Server`: how the request line is read back,
 * when dispatch answers 404 or 500, how arguments are bound, what the query
 * parser accepts and produces, and what the registry holds after scanning.
 */
module ServerLemmas {
  import opened Wrappers
  import opened Strings
  import opened Server

  // ---------------------------------------------------------------------------
  // Request line

  /**
   * When the first line has two tokens or more and the second is not empty,
   * `processRequest` reads back exactly the first two tokens as verb and path.
   */
  lemma RequestLineParsesBack(lines: seq<string>)
    requires |lines| > 0
    requires var t := Split(lines[0], ' '); |t| >= 2 && t[1] != ""
    ensures var t := Split(lines[0], ' '); RequestParts(RequestLine(lines)) == Some((t[0], t[1]))
  {
    var t := Split(lines[0], ' ');
    SplitPair(t[0], t[1], ' ');
  }

  /**
   * A well-formed first line `verb path version` (single spaces, non-empty tokens)
   * gives the request `verb + " " + path`, whatever lines follow it.
   */
  lemma TypicalRequestLine(verb: string, path: string, version: string, rest: seq<string>)
    requires ' ' !in verb && ' ' !in path && ' ' !in version && version != ""
    ensures RequestLine([verb + " " + path + " " + version] + rest) == verb + " " + path
  {
    SplitTriple(verb, path, version, ' ');
  }

  /**
   * The request string is the first line's own text up to the end of its second
   * token, whatever follows it: `GET /x  HTTP/1.1` (two spaces before the version)
   * still gives `GET /x`.
   */
  lemma RequestLineIsFirstTokens(lines: seq<string>)
    requires |lines| > 0 && |Split(lines[0], ' ')| >= 2
    ensures var t := Split(lines[0], ' ');
      && |t[0]| + 1 + |t[1]| <= |lines[0]|
      && RequestLine(lines) == lines[0][..|t[0]| + 1 + |t[1]|] == t[0] + " " + t[1]
  {
    var t := Split(lines[0], ' ');
    SplitFields(lines[0], ' ');
    assert lines[0][..|t[0]| + 1 + |t[1]|] == t[0] + " " + t[1];
  }

  /**
   * A first line whose second token is empty (two spaces after the verb) makes the
   * request string end in a space, and `processRequest` fails indexing its parts.
   */
  lemma EmptyPathTokenFails(services: map<string, MethodDesc>, lines: seq<string>)
    requires |lines| > 0
    requires var t := Split(lines[0], ' '); |t| >= 2 && t[1] == ""
    ensures Dispatch(services, RequestLine(lines)) == Fail(RequestIndexError)
  {
    var t := Split(lines[0], ' ');
    assert RequestLine(lines) == t[0] + [' '];
    SplitDangling(t[0], ' ');
  }

  /**
   * No input, or a first line with fewer than two tokens, yields the request
   * `" /simple"`: the empty verb is not GET, so the answer is 404 whatever is registered.
   */
  lemma FallbackRequestIsNotFound(services: map<string, MethodDesc>, lines: seq<string>)
    requires |lines| == 0 || |Split(lines[0], ' ')| < 2
    ensures RequestLine(lines) == " /simple"
    ensures Dispatch(services, RequestLine(lines)) == Respond(NotFound)
  {
    assert RequestLine(lines) == "" + [' '] + DefaultPath;
    SplitPair("", DefaultPath, ' ');
  }

  // ---------------------------------------------------------------------------
  // Dispatch

  /** The verbs `"GET".equalsIgnoreCase` accepts: the eight spellings of GET. */
  lemma IsGetSpellings(verb: string)
    ensures IsGet(verb) <==>
      |verb| == 3 && verb[0] in "Gg" && verb[1] in "Ee" && verb[2] in "Tt"
  {
    if |verb| == 3 {
      assert ToLowerAscii('G') == 'g' && ToLowerAscii('E') == 'e' && ToLowerAscii('T') == 't';
    }
  }

  /** Any verb other than GET (in any case) is answered 404, whatever the registry holds. */
  lemma NonGetIsNotFound(services: map<string, MethodDesc>, verb: string, path: string)
    requires ' ' !in verb && ' ' !in path && path != ""
    requires !IsGet(verb)
    ensures Dispatch(services, verb + " " + path) == Respond(NotFound)
  {
    SplitPair(verb, path, ' ');
  }

  /** A path that is not literally a registry key is answered 404. */
  lemma UnregisteredPathIsNotFound(services: map<string, MethodDesc>, verb: string, path: string)
    requires ' ' !in verb && ' ' !in path && path != ""
    requires path !in services
    ensures Dispatch(services, verb + " " + path) == Respond(NotFound)
  {
    SplitPair(verb, path, ' ');
  }

  /**
   * The lookup uses the whole path, query string included: with only `/greeting`
   * registered, `GET /greeting?name=Ana` is answered 404.
   */
  lemma QueryStringIsPartOfTheKey(greeting: MethodDesc)
    ensures Dispatch(map["/greeting" := greeting], "GET /greeting?name=Ana") == Respond(NotFound)
  {
    var path := "/greeting?name=Ana";
    assert path != "/greeting";
    assert "GET /greeting?name=Ana" == "GET" + " " + path;
    UnregisteredPathIsNotFound(map["/greeting" := greeting], "GET", path);
  }

  /**
   * When the declaring class cannot be instantiated the answer is exactly the 500
   * response, whichever handler function the method carries: it is never called.
   */
  lemma InstantiationFailureIs500(services: map<string, MethodDesc>, verb: string, path: string,
                                  handler: seq<Arg> -> Invocation)
    requires ' ' !in verb && ' ' !in path && path != ""
    requires IsGet(verb) && path in services && !services[path].ownerInstantiable
    ensures var patched := services[path := services[path].(invoke := handler)];
      Dispatch(patched, verb + " " + path) == Respond(InternalServerError)
  {
    SplitPair(verb, path, ' ');
  }

  /**
   * A registered, instantiable handler whose query parses is called with the bound
   * arguments, and its result is returned unchanged (`null` becomes the empty string);
   * a handler that throws ends the request without a response.
   */
  lemma HandlerResultIsTheResponse(services: map<string, MethodDesc>, verb: string, path: string)
    requires ' ' !in verb && ' ' !in path && path != ""
    requires IsGet(verb) && path in services && services[path].ownerInstantiable
    requires |services[path].parameters| > 0 ==> QueryParams(path).Ok?
    ensures var handler := services[path];
      var args := if |handler.parameters| == 0 then []
                  else Arguments(handler.parameters, QueryParams(path).value);
      && |args| == |handler.parameters|
      && Dispatch(services, verb + " " + path) ==
           match handler.invoke(args)
           case Returned(Some(s)) => Respond(s)
           case Returned(None) => Respond("")
           case Threw => Fail(HandlerException)
  {
    SplitPair(verb, path, ' ');
  }

  /** A handler with parameters and a malformed query string is never called. */
  lemma MalformedQueryFails(services: map<string, MethodDesc>, verb: string, path: string)
    requires ' ' !in verb && ' ' !in path && path != ""
    requires IsGet(verb) && path in services && services[path].ownerInstantiable
    requires |services[path].parameters| > 0 && QueryParams(path).Err?
    ensures Dispatch(services, verb + " " + path) == Fail(QueryIndexError)
  {
    SplitPair(verb, path, ' ');
  }

  // ---------------------------------------------------------------------------
  // Query parameters

  /** The text `split("=")` cuts a segment into: the key before the first `=`, the value up to the second. */
  lemma SegmentText(segment: string)
    requires HasValue(segment)
    ensures StartsWith(segment, KeyOf(segment) + "=" + ValueOf(segment))
    ensures '=' !in KeyOf(segment) && '=' !in ValueOf(segment)
    ensures var n := |KeyOf(segment)| + 1 + |ValueOf(segment)|; n < |segment| ==> segment[n] == '='
  {
    SplitFields(segment, '=');
    var k, v := KeyOf(segment), ValueOf(segment);
    var n := |k| + 1 + |v|;
    assert segment[..n] == k + "=" + v;
  }

  /** Parsing succeeds exactly when every segment has a value. */
  lemma {:induction false} AddParamsSucceeds(acc: map<string, string>, params: seq<string>)
    ensures AddParams(acc, params).Ok? <==> forall i :: 0 <= i < |params| ==> HasValue(params[i])
    decreases |params|
  {
    if params != [] {
      if HasValue(params[0]) {
        AddParamsSucceeds(acc[KeyOf(params[0]) := ValueOf(params[0])], params[1..]);
        assert forall i :: 1 <= i < |params| ==> params[i] == params[1..][i - 1];
      }
    }
  }

  /** The value kept for a key is that of the last segment with that key. */
  lemma {:induction false} AddParamsLastWins(acc: map<string, string>, params: seq<string>, i: nat)
    requires forall j :: 0 <= j < |params| ==> HasValue(params[j])
    requires i < |params|
    requires forall j :: i < j < |params| ==> KeyOf(params[j]) != KeyOf(params[i])
    ensures AddParams(acc, params).Ok?
    ensures var q := AddParams(acc, params).value;
      KeyOf(params[i]) in q && q[KeyOf(params[i])] == ValueOf(params[i])
    decreases |params|
  {
    AddParamsSucceeds(acc, params);
    var acc' := acc[KeyOf(params[0]) := ValueOf(params[0])];
    if i == 0 {
      AddParamsUntouched(acc', params[1..], KeyOf(params[0]));
    } else {
      AddParamsLastWins(acc', params[1..], i - 1);
    }
  }

  /** A key no segment names keeps its value from `acc`, or stays absent. */
  lemma {:induction false} AddParamsUntouched(acc: map<string, string>, params: seq<string>, k: string)
    requires forall j :: 0 <= j < |params| ==> HasValue(params[j])
    requires forall j :: 0 <= j < |params| ==> KeyOf(params[j]) != k
    ensures AddParams(acc, params).Ok?
    ensures var q := AddParams(acc, params).value;
      (k in q <==> k in acc) && (k in acc ==> q[k] == acc[k])
    decreases |params|
  {
    AddParamsSucceeds(acc, params);
    if params != [] {
      AddParamsUntouched(acc[KeyOf(params[0]) := ValueOf(params[0])], params[1..], k);
    }
  }

  /** Every key of the result is named by some segment, or was in `acc`. */
  lemma {:induction false} AddParamsKeys(acc: map<string, string>, params: seq<string>, k: string)
    requires forall j :: 0 <= j < |params| ==> HasValue(params[j])
    ensures AddParams(acc, params).Ok?
    ensures k in AddParams(acc, params).value <==>
      k in acc || exists j :: 0 <= j < |params| && KeyOf(params[j]) == k
    decreases |params|
  {
    AddParamsSucceeds(acc, params);
    if params != [] {
      AddParamsKeys(acc[KeyOf(params[0]) := ValueOf(params[0])], params[1..], k);
      if exists j :: 0 <= j < |params| && KeyOf(params[j]) == k {
        var j :| 0 <= j < |params| && KeyOf(params[j]) == k;
        if j > 0 {
          assert params[1..][j - 1] == params[j];
        }
      }
    }
  }

  /** A path without `?` has no query parameters. */
  lemma NoQuestionMarkNoParams(path: string)
    requires '?' !in path
    ensures QueryParams(path) == Ok(map[])
    ensures QuerySegments(path) == []
  {
  }

  /**
   * The query parses exactly when the path has no `?`, or has text after its first `?`
   * in which every `&`-segment has a value.
   */
  lemma QueryParamsSucceeds(path: string)
    ensures QueryParams(path).Ok? <==>
      '?' !in path || (|Split(path, '?')| >= 2 &&
                       forall i :: 0 <= i < |QuerySegments(path)| ==> HasValue(QuerySegments(path)[i]))
  {
    if '?' in path && |Split(path, '?')| >= 2 {
      AddParamsSucceeds(map[], QuerySegments(path));
    }
  }

  /**
   * A parsed query maps exactly the keys its segments name, each to the value of
   * the last segment that names it.
   */
  lemma QueryParamsEntries(path: string, k: string)
    requires QueryParams(path).Ok?
    ensures forall j :: 0 <= j < |QuerySegments(path)| ==> HasValue(QuerySegments(path)[j])
    ensures k in QueryParams(path).value <==>
      exists j :: 0 <= j < |QuerySegments(path)| && KeyOf(QuerySegments(path)[j]) == k
    ensures forall j :: (0 <= j < |QuerySegments(path)| && KeyOf(QuerySegments(path)[j]) == k &&
                         (forall l :: j < l < |QuerySegments(path)| ==> KeyOf(QuerySegments(path)[l]) != k))
                        ==> k in QueryParams(path).value && QueryParams(path).value[k] == ValueOf(QuerySegments(path)[j])
  {
    QueryParamsSucceeds(path);
    var segs := QuerySegments(path);
    if '?' in path {
      AddParamsKeys(map[], segs, k);
      forall j | 0 <= j < |segs| && KeyOf(segs[j]) == k &&
        (forall l :: j < l < |segs| ==> KeyOf(segs[l]) != k)
        ensures k in QueryParams(path).value && QueryParams(path).value[k] == ValueOf(segs[j])
      {
        AddParamsLastWins(map[], segs, j);
      }
    }
  }

  /** Characters that carry meaning in a path with a query string. */
  predicate Plain(s: string)
  {
    '?' !in s && '&' !in s && '=' !in s
  }

  /** `route?key=value` gives the one-entry map `{key: value}`. */
  lemma SingleParam(route: string, key: string, value: string)
    requires Plain(route) && Plain(key) && Plain(value) && value != ""
    ensures QueryParams(route + "?" + key + "=" + value) == Ok(map[key := value])
  {
    var segment := key + "=" + value;
    var path := route + "?" + segment;
    assert segment == key + ['='] + value;
    assert path == route + ['?'] + segment;
    assert route + "?" + key + "=" + value == path;
    assert '?' !in segment && '&' !in segment;
    assert path[|route|] == '?';
    SplitPair(route, segment, '?');
    assert QuerySegments(path) == [segment];
    SplitPair(key, value, '=');
    assert AddParams(map[], [segment]) == AddParams(map[key := value], []);
  }

  /** A `?` after the query is harmless: `route?key=value?` still gives `{key: value}`. */
  lemma TrailingQuestionMarkIgnored(route: string, key: string, value: string)
    requires Plain(route) && Plain(key) && Plain(value) && value != ""
    ensures QueryParams(route + "?" + key + "=" + value + "?") == Ok(map[key := value])
  {
    var segment := key + "=" + value;
    var path := route + "?" + segment + "?";
    assert segment == key + ['='] + value;
    assert path == route + ['?'] + segment + ['?'];
    assert route + "?" + key + "=" + value + "?" == path;
    assert '?' !in segment && '&' !in segment;
    assert path[|route|] == '?';
    SplitPairDangling(route, segment, '?');
    assert QuerySegments(path) == [segment];
    SplitPair(key, value, '=');
    assert AddParams(map[], [segment]) == AddParams(map[key := value], []);
  }

  /** `route?key` and `route?key=` fail: the segment has no value. */
  lemma MissingValueFails(route: string, key: string)
    requires Plain(route) && Plain(key)
    ensures QueryParams(route + "?" + key).Err?
    ensures QueryParams(route + "?" + key + "=").Err?
  {
    var path := route + "?" + key;
    assert path == route + ['?'] + key;
    assert path[|route|] == '?';
    if key == "" {
      assert path == route + ['?'];
      SplitDangling(route, '?');
    } else {
      SplitPair(route, key, '?');
    }
    var segment := key + "=";
    var path' := route + "?" + key + "=";
    assert path' == route + ['?'] + segment;
    assert path'[|route|] == '?';
    assert segment == key + ['='];
    SplitPair(route, segment, '?');
    SplitDangling(key, '=');
  }

  // ---------------------------------------------------------------------------
  // Registry

  lemma {:induction false} RegisterMethodsAppend(m: map<string, MethodDesc>, a: seq<MethodDesc>, b: seq<MethodDesc>)
    ensures RegisterMethods(m, a + b) == RegisterMethods(RegisterMethods(m, a), b)
    decreases |a|
  {
    if a == [] {
      assert a + b == b;
    } else {
      assert (a + b)[0] == a[0] && (a + b)[1..] == a[1..] + b;
      RegisterMethodsAppend(Put(m, a[0]), a[1..], b);
    }
  }

  /** Scanning classes in order is registering the methods of the marked ones in order. */
  lemma {:induction false} RegisteredIsExposed(m: map<string, MethodDesc>, classes: seq<ClassDesc>)
    ensures Registered(m, classes) == RegisterMethods(m, Exposed(classes))
    decreases |classes|
  {
    if classes != [] {
      var c := classes[0];
      var own := if Marked(c) then c.methods else [];
      RegisteredIsExposed(RegisterClass(m, c), classes[1..]);
      RegisterMethodsAppend(m, own, Exposed(classes[1..]));
      assert RegisterMethods(m, own) == RegisterClass(m, c);
    }
  }

  lemma {:induction false} ExposedAppend(a: seq<ClassDesc>, b: seq<ClassDesc>)
    ensures Exposed(a + b) == Exposed(a) + Exposed(b)
    decreases |a|
  {
    if a == [] {
      assert a + b == b;
    } else {
      assert (a + b)[0] == a[0] && (a + b)[1..] == a[1..] + b;
      ExposedAppend(a[1..], b);
    }
  }

  /** For a repeated route, the last method registered under it wins. */
  lemma {:induction false} RegisterMethodsLastWins(m: map<string, MethodDesc>, methods: seq<MethodDesc>, i: nat)
    requires i < |methods| && methods[i].getMapping.Some?
    requires forall j :: i < j < |methods| ==> methods[j].getMapping != methods[i].getMapping
    ensures var key := methods[i].getMapping.value;
      key in RegisterMethods(m, methods) && RegisterMethods(m, methods)[key] == methods[i]
    decreases |methods|
  {
    if i == 0 {
      RegisterMethodsUntouched(Put(m, methods[0]), methods[1..], methods[0].getMapping.value);
    } else {
      RegisterMethodsLastWins(Put(m, methods[0]), methods[1..], i - 1);
    }
  }

  /** A route that no method maps keeps its entry, or stays absent. */
  lemma {:induction false} RegisterMethodsUntouched(m: map<string, MethodDesc>, methods: seq<MethodDesc>, key: string)
    requires forall j :: 0 <= j < |methods| ==> methods[j].getMapping != Some(key)
    ensures var r := RegisterMethods(m, methods);
      (key in r <==> key in m) && (key in m ==> r[key] == m[key])
    decreases |methods|
  {
    if methods != [] {
      RegisterMethodsUntouched(Put(m, methods[0]), methods[1..], key);
    }
  }

  /** The keys after registering are the old ones plus the mapped routes. */
  lemma {:induction false} RegisterMethodsKeys(m: map<string, MethodDesc>, methods: seq<MethodDesc>, key: string)
    ensures key in RegisterMethods(m, methods) <==>
      key in m || exists j :: 0 <= j < |methods| && methods[j].getMapping == Some(key)
    decreases |methods|
  {
    if methods != [] {
      RegisterMethodsKeys(Put(m, methods[0]), methods[1..], key);
      if exists j :: 0 <= j < |methods| && methods[j].getMapping == Some(key) {
        var j :| 0 <= j < |methods| && methods[j].getMapping == Some(key);
        if j > 0 {
          assert methods[1..][j - 1] == methods[j];
        }
      }
    }
  }

  /** A mapped method is in `Exposed` exactly when some marked class declares it. */
  lemma ExposedMapping(classes: seq<ClassDesc>, key: string)
    ensures (exists x :: 0 <= x < |Exposed(classes)| && Exposed(classes)[x].getMapping == Some(key)) <==>
      (exists i, j :: 0 <= i < |classes| && Marked(classes[i]) && 0 <= j < |classes[i].methods| &&
                      classes[i].methods[j].getMapping == Some(key))
  {
    if exists x :: 0 <= x < |Exposed(classes)| && Exposed(classes)[x].getMapping == Some(key) {
      var x :| 0 <= x < |Exposed(classes)| && Exposed(classes)[x].getMapping == Some(key);
      var i, j := ExposedSource(classes, x);
    }
    if exists i, j :: 0 <= i < |classes| && Marked(classes[i]) && 0 <= j < |classes[i].methods| &&
                      classes[i].methods[j].getMapping == Some(key) {
      var i, j :| 0 <= i < |classes| && Marked(classes[i]) && 0 <= j < |classes[i].methods| &&
                  classes[i].methods[j].getMapping == Some(key);
      var x := ExposedIncludes(classes, i, j);
    }
  }

  /** Every exposed method is a method of a marked class. */
  lemma {:induction false} ExposedSource(classes: seq<ClassDesc>, x: nat) returns (i: nat, j: nat)
    requires x < |Exposed(classes)|
    ensures i < |classes| && Marked(classes[i]) && j < |classes[i].methods|
    ensures classes[i].methods[j] == Exposed(classes)[x]
    decreases |classes|
  {
    var own := if Marked(classes[0]) then classes[0].methods else [];
    var rest := Exposed(classes[1..]);
    assert Exposed(classes) == own + rest;
    if x < |own| {
      i, j := 0, x;
    } else {
      var i', j' := ExposedSource(classes[1..], x - |own|);
      assert classes[i' + 1] == classes[1..][i'];
      i, j := i' + 1, j';
    }
  }

  /** Every method of a marked class is exposed. */
  lemma {:induction false} ExposedIncludes(classes: seq<ClassDesc>, i: nat, j: nat) returns (x: nat)
    requires i < |classes| && Marked(classes[i]) && j < |classes[i].methods|
    ensures x < |Exposed(classes)| && Exposed(classes)[x] == classes[i].methods[j]
    decreases |classes|
  {
    var own := if Marked(classes[0]) then classes[0].methods else [];
    var rest := Exposed(classes[1..]);
    assert Exposed(classes) == own + rest;
    if i == 0 {
      x := j;
    } else {
      assert classes[1..][i - 1] == classes[i];
      var x' := ExposedIncludes(classes[1..], i - 1, j);
      x := |own| + x';
    }
  }

  /**
   * After scanning, a route is registered exactly when it was before or it is the
   * `@GetMapping` value of a public method of a class marked `@Component` or
   * `@RestController`; entries are only ever added or overwritten.
   */
  lemma RegistryKeys(m: map<string, MethodDesc>, classes: seq<ClassDesc>, key: string)
    ensures key in Registered(m, classes) <==>
      key in m || exists i, j :: 0 <= i < |classes| && Marked(classes[i]) && 0 <= j < |classes[i].methods| &&
                                 classes[i].methods[j].getMapping == Some(key)
    ensures m.Keys <= Registered(m, classes).Keys
  {
    RegisteredIsExposed(m, classes);
    RegisterMethodsKeys(m, Exposed(classes), key);
    ExposedMapping(classes, key);
    forall k | k in m ensures k in Registered(m, classes) {
      RegisterMethodsKeys(m, Exposed(classes), k);
    }
  }

  /** The entry of a route is the last exposed method that maps it, in scanning order. */
  lemma RegistryLastWins(m: map<string, MethodDesc>, classes: seq<ClassDesc>, x: nat)
    requires x < |Exposed(classes)| && Exposed(classes)[x].getMapping.Some?
    requires forall y :: x < y < |Exposed(classes)| ==> Exposed(classes)[y].getMapping != Exposed(classes)[x].getMapping
    ensures var key := Exposed(classes)[x].getMapping.value;
      key in Registered(m, classes) && Registered(m, classes)[key] == Exposed(classes)[x]
  {
    RegisteredIsExposed(m, classes);
    RegisterMethodsLastWins(m, Exposed(classes), x);
  }

  /** A class with neither marker adds nothing, wherever it stands in the scan. */
  lemma UnmarkedClassAddsNothing(m: map<string, MethodDesc>, before: seq<ClassDesc>, c: ClassDesc, after: seq<ClassDesc>)
    requires !Marked(c)
    ensures Registered(m, before + [c] + after) == Registered(m, before + after)
  {
    ExposedAppend(before + [c], after);
    ExposedAppend(before, [c]);
    ExposedAppend(before, after);
    assert Exposed([c]) == [] by {
      assert [c][1..] == [];
    }
    assert Exposed(before + [c]) == Exposed(before);
    RegisteredIsExposed(m, before + [c] + after);
    RegisteredIsExposed(m, before + after);
  }

  // ---------------------------------------------------------------------------
  // Class discovery

  /** A plain `Name.class` file gives the class `edu.eci.IoC.Name`. */
  lemma ClassNameOfClassFile(base: string)
    requires '.' !in base
    ensures ClassName(base + ".class") == "edu.eci.IoC." + base
  {
    RemoveAllBeforeSuffix(base);
    RootPackage();
  }

  lemma RemoveAllBeforeSuffix(base: string)
    requires '.' !in base
    ensures RemoveAll(base + ".class", ".class") == base
  {
    RemoveAllDotFreePrefix(base, "");
    assert base + ".class" + "" == base + ".class";
  }

  /**
   * `replace(".class", "")` removes a `.class` that follows a dot-free prefix and goes
   * on removing in the rest of the text.
   */
  lemma {:induction false} RemoveAllDotFreePrefix(a: string, b: string)
    requires '.' !in a
    ensures RemoveAll(a + ".class" + b, ".class") == a + RemoveAll(b, ".class")
    decreases |a|
  {
    var s := a + ".class" + b;
    if a == [] {
      assert s == ".class" + b;
      assert StartsWith(s, ".class");
      assert s[6..] == b;
    } else {
      assert s[0] == a[0] && s[0] != '.';
      assert !StartsWith(s, ".class");
      assert s[1..] == a[1..] + ".class" + b;
      RemoveAllDotFreePrefix(a[1..], b);
      assert [a[0]] + (a[1..] + RemoveAll(b, ".class")) == a + RemoveAll(b, ".class");
    }
  }

  /** Every occurrence is removed, not only the last: `A.classB.class` gives `AB`. */
  lemma EveryOccurrenceRemoved(a: string, b: string)
    requires '.' !in a && '.' !in b
    ensures RemoveAll(a + ".class" + b + ".class", ".class") == a + b
  {
    RemoveAllDotFreePrefix(a, b + ".class");
    assert a + ".class" + b + ".class" == a + ".class" + (b + ".class");
    RemoveAllBeforeSuffix(b);
  }

  /** Every loaded class is what `Class.forName` gave for the name of some `.class` file. */
  lemma {:induction false} LoadedClassesOrigin(listing: seq<FileEntry>, forName: string -> Option<ClassDesc>, i: nat)
    returns (j: nat)
    requires i < |LoadedClasses(listing, forName)|
    ensures j < |listing| && IsClassFile(listing[j])
    ensures forName(ClassName(listing[j].name)) == Some(LoadedClasses(listing, forName)[i])
    decreases |listing|
  {
    var loaded := LoadedClasses(listing, forName);
    var rest := LoadedClasses(listing[1..], forName);
    if !IsClassFile(listing[0]) {
      var k := LoadedClassesOrigin(listing[1..], forName, i);
      assert listing[k + 1] == listing[1..][k];
      j := k + 1;
    } else {
      var r := forName(ClassName(listing[0].name));
      assert r.Some? && loaded == [r.value] + rest;
      if i == 0 {
        j := 0;
      } else {
        var k := LoadedClassesOrigin(listing[1..], forName, i - 1);
        assert listing[k + 1] == listing[1..][k];
        j := k + 1;
      }
    }
  }

  /** Every `.class` file of `listing` names a class that `forName` loads. */
  predicate AllClassFilesLoad(listing: seq<FileEntry>, forName: string -> Option<ClassDesc>)
  {
    forall i :: 0 <= i < |listing| && IsClassFile(listing[i]) ==> forName(ClassName(listing[i].name)).Some?
  }

  /** The classes `forName` gives for the `.class` files of `listing` that load, in listing order. */
  function ClassFileClasses(listing: seq<FileEntry>, forName: string -> Option<ClassDesc>): seq<ClassDesc>
  {
    if listing == [] then []
    else if !IsClassFile(listing[0]) then ClassFileClasses(listing[1..], forName)
    else
      match forName(ClassName(listing[0].name))
      case None => ClassFileClasses(listing[1..], forName)
      case Some(c) => [c] + ClassFileClasses(listing[1..], forName)
  }

  /**
   * When every `.class` file loads, the scan returns the class of each of them, in
   * listing order: no listed class is missed.
   */
  lemma {:induction false} LoadedClassesAll(listing: seq<FileEntry>, forName: string -> Option<ClassDesc>)
    requires AllClassFilesLoad(listing, forName)
    ensures LoadedClasses(listing, forName) == ClassFileClasses(listing, forName)
    decreases |listing|
  {
    if listing != [] {
      assert forall i :: 0 <= i < |listing| - 1 ==> listing[1..][i] == listing[i + 1];
      assert IsClassFile(listing[0]) ==> forName(ClassName(listing[0].name)).Some?;
      LoadedClassesAll(listing[1..], forName);
    }
  }

  /**
   * A `.class` file whose class cannot be loaded ends the scan: nothing listed after
   * it is loaded, and what was loaded before it is kept.
   */
  lemma {:induction false} LoadFailureEndsScan(before: seq<FileEntry>, e: FileEntry, after: seq<FileEntry>,
                                               forName: string -> Option<ClassDesc>)
    requires IsClassFile(e) && forName(ClassName(e.name)).None?
    ensures LoadedClasses(before + [e] + after, forName) == LoadedClasses(before, forName)
    decreases |before|
  {
    if before == [] {
      assert (before + [e] + after)[0] == e;
    } else {
      assert (before + [e] + after)[0] == before[0] && (before + [e] + after)[1..] == before[1..] + [e] + after;
      LoadFailureEndsScan(before[1..], e, after, forName);
    }
  }
}
