/**
 * The inversion-of-control router of `HttpServer`: reading the request line,
 * parsing the query string, building the `services` registry from annotated
 * handler classes, and dispatching a request to the registered handler.
 *
 * Reflection is replaced by explicit descriptors: a class is a `ClassDesc`
 * carrying its `@Component` / `@RestController` markers and its public methods;
 * a method is a `MethodDesc` carrying its `@GetMapping` value, its parameters'
 * `@RequestParam` markers, the handler as a function value and whether its
 * declaring class can be default-constructed.
 */
module Server {
  import opened Wrappers
  import opened Strings

  const NotFound: string := "HTTP/1.1 404 Not Found\r\n\r\n"
  const InternalServerError: string := "HTTP/1.1 500 Internal Server Error\r\n\r\n"
  /** The path used when the first request line has fewer than two tokens. */
  const DefaultPath: string := "/simple"
  /** The sub-directory, below each class-path entry, that holds the handler classes. */
  const PathToClasses: string := "edu/eci/IoC"

  /** The `@RequestParam(value, defaultValue)` marker of one handler parameter. */
  datatype RequestParam = RequestParam(value: string, defaultValue: string)

  /** One declared parameter of a handler method, with its marker if it has one. */
  datatype Parameter = Parameter(requestParam: Option<RequestParam>)

  /** One slot of the `Object[] args` array: `None` is `null`. */
  type Arg = Option<string>

  /** What `Method.invoke` does: return a value (possibly `null`) or throw. */
  datatype Invocation = Returned(result: Option<string>) | Threw

  /** A public method as reflection sees it. */
  datatype MethodDesc = MethodDesc(
    getMapping: Option<string>,          // the value of `@GetMapping`, if present
    parameters: seq<Parameter>,
    invoke: seq<Arg> -> Invocation,
    ownerInstantiable: bool)             // the declaring class has a usable no-argument constructor

  /** A loaded handler class and its public methods, in the order `getMethods` lists them. */
  datatype ClassDesc = ClassDesc(component: bool, restController: bool, methods: seq<MethodDesc>)

  /** One entry of a class directory listing. */
  datatype FileEntry = FileEntry(name: string, isFile: bool)

  /**
   * Why a request ends without a response string. The index errors are
   * `ArrayIndexOutOfBoundsException`s that nothing in the server catches: they
   * leave the accept loop and the program's entry point, so the server stops; a
   * handler that throws surfaces as an `InvocationTargetException`, which is
   * logged, and the connection is closed without a reply.
   */
  datatype Failure = RequestIndexError | QueryIndexError | HandlerException

  /** The end of dispatching one request. */
  datatype Outcome = Respond(response: string) | Fail(failure: Failure)

  // ---------------------------------------------------------------------------
  // Reading the request line

  /**
   * The `verb + " " + path` string that one first line of a request yields: the
   * line's own text up to the end of its second token, or `" /simple"` when the line
   * has fewer than two tokens.
   */
  function FirstLineRequest(line: string): (r: string)
    ensures |Split(line, ' ')| >= 2 ==>
      StartsWith(line, r) && |r| == |Split(line, ' ')[0]| + 1 + |Split(line, ' ')[1]|
    ensures |Split(line, ' ')| < 2 ==> r == " /simple"
  {
    var requestTokens := Split(line, ' ');
    if |requestTokens| >= 2 then
      SplitFields(line, ' ');
      assert line[..|requestTokens[0]| + 1 + |requestTokens[1]|] == requestTokens[0] + " " + requestTokens[1];
      requestTokens[0] + " " + requestTokens[1]
    else "" + " " + DefaultPath
  }

  /**
   * The request string built from the lines a client sent: only the first line
   * counts, and no lines at all give `" /simple"`.
   */
  function RequestLine(lines: seq<string>): (r: string)
    ensures |lines| > 0 && |Split(lines[0], ' ')| >= 2 ==>
      StartsWith(lines[0], r) && |r| == |Split(lines[0], ' ')[0]| + 1 + |Split(lines[0], ' ')[1]|
    ensures (|lines| == 0 || |Split(lines[0], ' ')| < 2) ==> r == " /simple"
  {
    if |lines| == 0 then "" + " " + DefaultPath else FirstLineRequest(lines[0])
  }

  // ---------------------------------------------------------------------------
  // Query parameters

  /** Adds the `key=value` segments to `acc` from left to right; a segment without a value fails. */
  function AddParams(acc: map<string, string>, params: seq<string>): (r: Result<map<string, string>, Failure>)
    ensures r.Err? ==> r.error == QueryIndexError
    ensures r.Ok? ==> acc.Keys <= r.value.Keys && |r.value| <= |acc| + |params|
    decreases |params|
  {
    if params == [] then Ok(acc)
    else
      var keyValue := Split(params[0], '=');
      if |keyValue| < 2 then Err(QueryIndexError)
      else AddParams(acc[keyValue[0] := keyValue[1]], params[1..])
  }

  /**
   * The query parameters of `path`, as `getQueryParamsFromPath` builds them: at most
   * one entry per `&`-segment; the only failure is the index error, and only for a
   * path with a `?`.
   */
  function QueryParams(path: string): (r: Result<map<string, string>, Failure>)
    ensures r.Err? ==> r.error == QueryIndexError && '?' in path
    ensures r.Ok? ==> |r.value| <= |QuerySegments(path)|
  {
    if '?' !in path then Ok(map[])
    else
      var pathParts := Split(path, '?');
      if |pathParts| < 2 then Err(QueryIndexError)
      else AddParams(map[], QuerySegments(path))
  }

  /** The `&`-segments of the text between the first and the second `?` of `path`. */
  function QuerySegments(path: string): seq<string>
  {
    var pathParts := Split(path, '?');
    if |pathParts| < 2 then [] else Split(pathParts[1], '&')
  }

  /** A segment that `split("=")` cuts into a key and a value. */
  predicate HasValue(segment: string)
  {
    |Split(segment, '=')| >= 2
  }

  function KeyOf(segment: string): string
    requires HasValue(segment)
  {
    Split(segment, '=')[0]
  }

  function ValueOf(segment: string): string
    requires HasValue(segment)
  {
    Split(segment, '=')[1]
  }

  // ---------------------------------------------------------------------------
  // Dispatch

  /** `"GET".equalsIgnoreCase(verb)`. */
  predicate IsGet(verb: string)
  {
    EqualsIgnoreCase("GET", verb)
  }

  /** The verb and path that `processRequest` reads from a request string, if it has both. */
  function RequestParts(request: string): Option<(string, string)>
  {
    var requestParts := Split(request, ' ');
    if |requestParts| < 2 then None else Some((requestParts[0], requestParts[1]))
  }

  /** The value bound to one parameter slot. */
  function Bind(parameter: Parameter, queryParams: map<string, string>): Arg
  {
    match parameter.requestParam
    case None => None
    case Some(rp) => Some(if rp.value in queryParams then queryParams[rp.value] else rp.defaultValue)
  }

  /**
   * The argument array: one slot per declared parameter; a `@RequestParam` slot gets
   * the query value of its name when the query has that key and its declared default
   * otherwise; a slot without the marker stays `null`.
   */
  function Arguments(parameters: seq<Parameter>, queryParams: map<string, string>): (args: seq<Arg>)
    ensures |args| == |parameters|
    ensures forall i :: 0 <= i < |parameters| && parameters[i].requestParam.None? ==> args[i] == None
    ensures forall i :: 0 <= i < |parameters| && parameters[i].requestParam.Some? ==>
      var name := parameters[i].requestParam.value.value;
      args[i] == Some(if name in queryParams then queryParams[name]
                      else parameters[i].requestParam.value.defaultValue)
  {
    seq(|parameters|, i requires 0 <= i < |parameters| => Bind(parameters[i], queryParams))
  }

  /** Calling the handler and turning its result into the response string. */
  function Invoke(handler: MethodDesc, args: seq<Arg>): Outcome
  {
    match handler.invoke(args)
    case Threw => Fail(HandlerException)
    case Returned(result) => Respond(if result.Some? then result.value else "")
  }

  /**
   * What `processRequest` answers to `request` given the registry `services`. The
   * request index error happens exactly when the request has fewer than two tokens;
   * the query index error only for a registered path with a `?` whose handler takes
   * parameters; any answer other than 404 is for a GET of a registered path.
   */
  function Dispatch(services: map<string, MethodDesc>, request: string): (r: Outcome)
    ensures r == Fail(RequestIndexError) <==> RequestParts(request).None?
    ensures r == Fail(QueryIndexError) ==>
      && RequestParts(request).Some?
      && var path := RequestParts(request).value.1;
      && path in services && |services[path].parameters| > 0 && '?' in path
    ensures r.Respond? && r.response != NotFound ==>
      && RequestParts(request).Some?
      && IsGet(RequestParts(request).value.0)
      && RequestParts(request).value.1 in services
  {
    match RequestParts(request)
    case None => Fail(RequestIndexError)
    case Some((verb, path)) =>
      if !(IsGet(verb) && path in services) then Respond(NotFound)
      else
        var handler := services[path];
        if !handler.ownerInstantiable then Respond(InternalServerError)
        else if |handler.parameters| == 0 then Invoke(handler, [])
        else
          match QueryParams(path)
          case Err(e) => Fail(e)
          case Ok(queryParams) => Invoke(handler, Arguments(handler.parameters, queryParams))
  }

  // ---------------------------------------------------------------------------
  // Registry construction

  predicate Marked(c: ClassDesc)
  {
    c.component || c.restController
  }

  /** `services.put(key, method)` for a method that has a `@GetMapping`. */
  function Put(services: map<string, MethodDesc>, m: MethodDesc): map<string, MethodDesc>
  {
    match m.getMapping
    case None => services
    case Some(key) => services[key := m]
  }

  /** The registry after `put`ting the mapped methods of `methods` in order: no route is ever removed. */
  function RegisterMethods(services: map<string, MethodDesc>, methods: seq<MethodDesc>): (r: map<string, MethodDesc>)
    ensures services.Keys <= r.Keys
    decreases |methods|
  {
    if methods == [] then services
    else RegisterMethods(Put(services, methods[0]), methods[1..])
  }

  function RegisterClass(services: map<string, MethodDesc>, c: ClassDesc): map<string, MethodDesc>
  {
    if Marked(c) then RegisterMethods(services, c.methods) else services
  }

  /** The registry after `inversionOfControl` has scanned `classes` in order: no route is ever removed. */
  function Registered(services: map<string, MethodDesc>, classes: seq<ClassDesc>): (r: map<string, MethodDesc>)
    ensures services.Keys <= r.Keys
    decreases |classes|
  {
    if classes == [] then services
    else Registered(RegisterClass(services, classes[0]), classes[1..])
  }

  /** The public methods of the marked classes, in scanning order. */
  function Exposed(classes: seq<ClassDesc>): seq<MethodDesc>
  {
    if classes == [] then []
    else (if Marked(classes[0]) then classes[0].methods else []) + Exposed(classes[1..])
  }

  /** The class name `getClasses` derives from a `.class` file name. */
  function ClassName(fileName: string): (r: string)
    ensures StartsWith(r, "edu.eci.IoC.")
  {
    var rootTemp := ReplaceChar(PathToClasses, '/', '.');
    RootPackage();
    rootTemp + "." + RemoveAll(fileName, ".class")
  }

  /** `pathToClasses.replace("/", ".")` is the package name of the handler classes. */
  lemma RootPackage()
    ensures ReplaceChar(PathToClasses, '/', '.') == "edu.eci.IoC"
  {
  }

  /** A listing entry `getClasses` turns into a class: a file whose name ends in `.class`. */
  predicate IsClassFile(entry: FileEntry)
  {
    entry.isFile && EndsWith(entry.name, ".class")
  }

  /**
   * The classes `getClasses` returns for a directory listing, where `forName` is
   * `Class.forName` (`None` when it throws). The first failure ends the whole scan,
   * keeping what was loaded before it.
   */
  function LoadedClasses(listing: seq<FileEntry>, forName: string -> Option<ClassDesc>): (r: seq<ClassDesc>)
    ensures |r| <= |listing|
  {
    if listing == [] then []
    else if !IsClassFile(listing[0]) then LoadedClasses(listing[1..], forName)
    else
      match forName(ClassName(listing[0].name))
      case None => []
      case Some(c) => [c] + LoadedClasses(listing[1..], forName)
  }

  // ---------------------------------------------------------------------------
  // The server

  class HttpServer {
    /** Route key to handler method; last registration wins. */
    var services: map<string, MethodDesc>

    constructor ()
      ensures services == map[]
    {
      services := map[];
    }

    /**
     * Reads the request lines and returns `verb + " " + path` from the first of
     * them; the remaining lines are drained and ignored.
     */
    static method ProcessClientRequest(lines: seq<string>) returns (result: string)
      ensures result == RequestLine(lines)
    {
      var request := DefaultPath;
      var verb := "";
      var firstLine := true;
      var i := 0;
      while i < |lines|
        invariant 0 <= i <= |lines|
        invariant firstLine <==> i == 0
        invariant verb + " " + request == RequestLine(lines[..i])
      {
        var inputLine := lines[i];
        i := i + 1;
        if firstLine {
          var requestTokens := Split(inputLine, ' ');
          if |requestTokens| >= 2 {
            request := requestTokens[1];
            verb := requestTokens[0];
          }
          firstLine := false;
        }
      }
      assert lines[..i] == lines;
      result := verb + " " + request;
    }

    /** Parses the query string of `path` into a map, failing on a segment without a value. */
    static method GetQueryParamsFromPath(path: string) returns (r: Result<map<string, string>, Failure>)
      ensures r == QueryParams(path)
    {
      var queryParams: map<string, string> := map[];
      if '?' in path {
        var pathParts := Split(path, '?');
        if |pathParts| < 2 {
          return Err(QueryIndexError);
        }
        var params := Split(pathParts[1], '&');
        var i := 0;
        while i < |params|
          invariant 0 <= i <= |params|
          invariant AddParams(queryParams, params[i..]) == AddParams(map[], params)
        {
          var keyValue := Split(params[i], '=');
          if |keyValue| < 2 {
            return Err(QueryIndexError);
          }
          queryParams := queryParams[keyValue[0] := keyValue[1]];
          i := i + 1;
        }
      }
      return Ok(queryParams);
    }

    /** Lists the classes of the handler directory, loading each `.class` file in turn. */
    static method GetClasses(listing: seq<FileEntry>, forName: string -> Option<ClassDesc>)
      returns (classes: seq<ClassDesc>)
      ensures classes == LoadedClasses(listing, forName)
    {
      classes := [];
      var i := 0;
      while i < |listing|
        invariant 0 <= i <= |listing|
        invariant classes + LoadedClasses(listing[i..], forName) == LoadedClasses(listing, forName)
      {
        var cf := listing[i];
        assert listing[i..][0] == cf && listing[i..][1..] == listing[i + 1..];
        if cf.isFile && EndsWith(cf.name, ".class") {
          var className := ClassName(cf.name);
          var clasS := forName(className);
          if clasS.None? {
            assert classes == LoadedClasses(listing, forName);
            return;
          }
          classes := classes + [clasS.value];
        }
        i := i + 1;
      }
    }

    /**
     * Scans the handler classes and registers every `@GetMapping` method of a class
     * marked `@Component` or `@RestController` under its mapping value.
     */
    method InversionOfControl(listing: seq<FileEntry>, forName: string -> Option<ClassDesc>)
      modifies this
      ensures services == Registered(old(services), LoadedClasses(listing, forName))
    {
      var classes := GetClasses(listing, forName);
      var i := 0;
      while i < |classes|
        invariant 0 <= i <= |classes|
        invariant Registered(services, classes[i..]) == Registered(old(services), classes)
      {
        var clasS := classes[i];
        if clasS.component || clasS.restController {
          var methods := clasS.methods;
          var j := 0;
          while j < |methods|
            invariant 0 <= j <= |methods|
            invariant Registered(RegisterMethods(services, methods[j..]), classes[i + 1..])
                   == Registered(old(services), classes)
          {
            var m := methods[j];
            if m.getMapping.Some? {
              var key := m.getMapping.value;
              services := services[key := m];
            }
            j := j + 1;
          }
        }
        i := i + 1;
      }
    }

    /** Answers one request string from the registry. */
    method ProcessRequest(request: string) returns (outcome: Outcome)
      ensures outcome == Dispatch(services, request)
    {
      var requestParts := Split(request, ' ');
      if |requestParts| < 2 {
        return Fail(RequestIndexError);
      }
      var verb := requestParts[0];
      var path := requestParts[1];
      if IsGet(verb) && path in services {
        var handler := services[path];
        if !handler.ownerInstantiable {
          return Respond(InternalServerError);
        }
        var parameters := handler.parameters;
        var args := new Arg[|parameters|](_ => None);
        ghost var queryParams: map<string, string> := map[];
        if |parameters| > 0 {
          var parsed := GetQueryParamsFromPath(path);
          if parsed.Err? {
            return Fail(parsed.error);
          }
          queryParams := parsed.value;
          var i := 0;
          while i < |parameters|
            invariant 0 <= i <= |parameters|
            invariant forall j :: 0 <= j < i ==> args[j] == Bind(parameters[j], queryParams)
            invariant forall j :: i <= j < |parameters| ==> args[j] == None
          {
            match parameters[i].requestParam {
              case Some(paramAnnotation) =>
                var paramName := paramAnnotation.value;
                var paramValue := if paramName in parsed.value then parsed.value[paramName]
                                  else paramAnnotation.defaultValue;
                args[i] := Some(paramValue);
              case None =>
            }
            i := i + 1;
          }
        }
        assert args[..] == if |parameters| == 0 then [] else Arguments(parameters, queryParams);
        var result := handler.invoke(args[..]);
        match result {
          case Threw => outcome := Fail(HandlerException);
          case Returned(value) => outcome := Respond(if value.Some? then value.value else "");
        }
      } else {
        outcome := Respond(NotFound);
      }
    }
  }
}
