# IoC HTTP server router in Dafny

A model of the core of a small Java HTTP server that routes requests to handler
classes found by reflection (an "inversion of control" router):

- `Server.HttpServer.ProcessClientRequest` reads the request line: only the first
  line sent counts, `verb + " " + path` comes from its first two space-separated
  tokens, and `" /simple"` is the fallback.
- `Server.HttpServer.GetClasses` and `Server.HttpServer.InversionOfControl` scan the
  handler directory. They derive class names from `.class` file names and load the
  classes. Every `@GetMapping` method of a class marked `@Component` or
  `@RestController` goes into the `services` map; the last method registered for a
  route wins. Java returns the directory's files and a class's methods in no
  particular order, so when two methods map the same route, which one wins is
  unspecified in the code; the model takes both orders as inputs.
- `Server.HttpServer.ProcessRequest` dispatches a request. The answer is 404 unless
  the verb is GET (in any case) and the whole path, query string included, is a
  registry key. It is 500 when the handler's class cannot be instantiated. Otherwise
  the handler is called with its `@RequestParam` arguments bound from the query
  string or their defaults, and its result string is the response.
- `Server.HttpServer.GetQueryParamsFromPath` parses the query string: the text
  between the first and second `?` is split on `&`, each segment on `=`, and later
  keys overwrite earlier ones.
- `FileManager` holds the response builders of the one handler class,
  `ComponentFileManager`: `/hello`, `/image` (a page embedding a base64 image) and
  `/host` (a page embedding an HTML file's text, read line by line).
- `Wiring` puts the two together: the handler directory as the server would discover
  it, holding the handler class and the four annotation types the server imports from
  the same package, and what the server answers on the three routes.

Java's `String.split` with a delimiter of one ordinary (non-metacharacter) character,
or an escaped one such as `"\\?"`, is modelled exactly in
`Strings.Split`: the string itself when the delimiter does not occur, otherwise all
pieces with the trailing empty ones dropped. Reflection is replaced by descriptors:
- A class is a `ClassDesc`: its two markers and its public methods.
- A method is a `MethodDesc`: its `@GetMapping` value, its parameters' `@RequestParam`
  markers, the handler as a function value, and whether its declaring class has a
  usable no-argument constructor.
- `Class.forName` is a function parameter returning `None` when loading fails.

Behaviours of the code the model keeps, some of them surprising:
- The route key looked up is the whole path token, query string included. With
  `/greeting` registered, `GET /greeting?name=Ana` is answered 404
  (`ServerLemmas.QueryStringIsPartOfTheKey`).
- The first line read is interpreted even when it is empty. An empty first line
  falls back to `" /simple"`.
- A handler that throws does not produce a 500 response. `Method.invoke` wraps the
  exception in an `InvocationTargetException`, which `handleClientCommunication`
  catches and logs, and no response is written. The model's outcome is
  `Fail(HandlerException)`.
- Malformed input raises `ArrayIndexOutOfBoundsException`s, and no response is
  written. The model's outcome is `Fail(RequestIndexError)` or
  `Fail(QueryIndexError)`. Nothing catches these exceptions: they leave
  `handleClientCommunication`, the accept loop of `start` and
  `ServerStarter.main`, whose `catch` names only checked exceptions, so one such
  request stops the server. Inputs that do this:
  - a request string with fewer than two tokens, e.g. a first line `GET  /x`;
  - for a route whose handler takes parameters (the query string is only parsed
    then, and the route key itself must contain the `?`), a query segment without
    a value (`k`, `k=`, an empty segment), or a path in which only `?` characters
    follow the first `?` (`/r?`, `/r??`). A path such as `/r?k=v?` is not an
    error: the trailing empty piece is dropped and it gives `{k: v}`
    (`ServerLemmas.TrailingQuestionMarkIgnored`).
- Class loading stops at the first class that fails to load, because the `try` in
  `getClasses` encloses both loops. The classes loaded before it are kept.

## Model

| member | source | states |
|---|---|---|
| Strings.Split | src/main/java/edu/eci/arep/HttpServer.java:159 | `split` on one character: the string itself when the character is absent; otherwise a prefix of all pieces, ending in a non-empty piece, with only empty pieces dropped, and no piece holds the character |
| Strings.Pieces | src/main/java/edu/eci/arep/HttpServer.java:231-234 | at least one piece, none holding the delimiter, exactly one precisely when the delimiter is absent |
| Strings.DropTrailingEmpty | src/main/java/edu/eci/arep/HttpServer.java:234 | the result is a prefix that is empty or ends in a non-empty string, and everything dropped is empty |
| Strings.JoinPieces | src/main/java/edu/eci/arep/HttpServer.java:231-234 | joining the pieces with the delimiter gives the string back |
| Strings.PiecesJoin | src/main/java/edu/eci/arep/HttpServer.java:231-234 | cutting a join of delimiter-free pieces gives the pieces back |
| Strings.SplitPair | src/main/java/edu/eci/arep/HttpServer.java:180-182 | `a c b` with `b` non-empty splits into exactly `[a, b]` |
| Strings.SplitTriple | src/main/java/edu/eci/arep/HttpServer.java:159-162 | `a c b c v` with `v` non-empty splits into exactly `[a, b, v]` |
| Strings.SplitPairDangling | src/main/java/edu/eci/arep/HttpServer.java:231 | `a c b c` with `b` non-empty splits into exactly `[a, b]`: the empty piece after the last delimiter is dropped |
| Strings.SplitDangling | src/main/java/edu/eci/arep/HttpServer.java:180-182 | a token followed only by the delimiter splits into fewer than two tokens |
| Strings.SplitFields | src/main/java/edu/eci/arep/HttpServer.java:234-235 | with two tokens or more, the first is the text before the first delimiter and the second the text up to the next one |
| Strings.RemoveAll | src/main/java/edu/eci/arep/HttpServer.java:284 | `replace(".class", "")` never makes a name longer |
| Strings.RemoveAllAbsent | src/main/java/edu/eci/arep/HttpServer.java:284 | a name in which the removed text does not occur is left unchanged |
| Strings.EqualsIgnoreCase | src/main/java/edu/eci/arep/HttpServer.java:184 | equal strings compare equal ignoring case, and only strings of the same length can |
| Server.FirstLineRequest | src/main/java/edu/eci/arep/HttpServer.java:158-168 | with two tokens or more, the request string is the prefix of the line as long as the first token, a space and the second token, i.e. the line's text up to the end of its second token; otherwise it is `" /simple"` |
| Server.RequestLine | src/main/java/edu/eci/arep/HttpServer.java:146-169 | only the first line counts: the request is the prefix of the first line as long as its first token, a space and its second token, or `" /simple"` when that line has fewer than two tokens or no line was read |
| Server.AddParams | src/main/java/edu/eci/arep/HttpServer.java:233-236 | the segment loop fails only with the index error; on success every key already present stays, and each segment adds at most one entry |
| Server.QueryParams | src/main/java/edu/eci/arep/HttpServer.java:228-239 | the query map has at most one entry per `&`-segment; parsing fails only with the index error, and only for a path containing `?` |
| Server.Dispatch | src/main/java/edu/eci/arep/HttpServer.java:179-212 | the request index error happens exactly when the request has fewer than two tokens; the query index error only for a registered path containing `?` whose handler has parameters; every answer other than 404 is for a GET of a registered path |
| Server.Arguments | src/main/java/edu/eci/arep/HttpServer.java:193-205 | one slot per parameter; a `@RequestParam` slot holds the query value of its name if present, else its default; an unmarked slot is `null` |
| Server.ClassName | src/main/java/edu/eci/arep/HttpServer.java:283-284 | every derived class name lies in the package `edu.eci.IoC` |
| Server.RegisterMethods | src/main/java/edu/eci/arep/HttpServer.java:319-325 | `put`ting a class's methods never removes a route |
| Server.Registered | src/main/java/edu/eci/arep/HttpServer.java:314-328 | scanning the classes never removes a route |
| Server.LoadedClasses | src/main/java/edu/eci/arep/HttpServer.java:275-295 | at most one class is loaded per listing entry |
| Server.RootPackage | src/main/java/edu/eci/arep/HttpServer.java:283 | `"edu/eci/IoC".replace("/", ".")` is `edu.eci.IoC` |
| Server.HttpServer.constructor | src/main/java/edu/eci/arep/HttpServer.java:32 | the registry starts empty |
| Server.HttpServer.ProcessClientRequest | src/main/java/edu/eci/arep/HttpServer.java:146-169 | the loop over the lines returns `RequestLine(lines)`: the first two tokens of the first line, or `" /simple"` |
| Server.HttpServer.GetQueryParamsFromPath | src/main/java/edu/eci/arep/HttpServer.java:228-239 | the loop of `put`s returns `QueryParams(path)`, including its index-error failure |
| Server.HttpServer.GetClasses | src/main/java/edu/eci/arep/HttpServer.java:275-295 | the scan returns `LoadedClasses(listing, forName)`: the `.class` files loaded in order, stopping at the first load failure |
| Server.HttpServer.InversionOfControl | src/main/java/edu/eci/arep/HttpServer.java:314-328 | the nested loops leave `services == Registered(old(services), LoadedClasses(...))` |
| Server.HttpServer.ProcessRequest | src/main/java/edu/eci/arep/HttpServer.java:179-212 | filling the argument array and invoking yields exactly `Dispatch(services, request)` |
| ServerLemmas.RequestLineParsesBack | src/main/java/edu/eci/arep/HttpServer.java:158-168 | with two tokens, the second non-empty, dispatch reads back exactly those tokens as verb and path |
| ServerLemmas.TypicalRequestLine | src/main/java/edu/eci/arep/HttpServer.java:152-168 | a first line `verb path version` gives `verb + " " + path`, whatever lines follow |
| ServerLemmas.RequestLineIsFirstTokens | src/main/java/edu/eci/arep/HttpServer.java:158-168 | for any first line with two tokens or more, whatever spacing follows, the request is exactly `tokens[0] + " " + tokens[1]`, the line's text up to the end of its second token |
| ServerLemmas.EmptyPathTokenFails | src/main/java/edu/eci/arep/HttpServer.java:180-182 | an empty second token makes dispatch fail with an index error |
| ServerLemmas.FallbackRequestIsNotFound | src/main/java/edu/eci/arep/HttpServer.java:148-168 | no lines, or a first line with fewer than two tokens, gives `" /simple"`, which is answered 404 whatever is registered |
| ServerLemmas.IsGetSpellings | src/main/java/edu/eci/arep/HttpServer.java:184 | the accepted verbs are exactly the eight case spellings of GET |
| ServerLemmas.NonGetIsNotFound | src/main/java/edu/eci/arep/HttpServer.java:184-210 | a verb other than GET is answered with the exact 404 response whatever the registry holds |
| ServerLemmas.UnregisteredPathIsNotFound | src/main/java/edu/eci/arep/HttpServer.java:182-210 | a path that is not literally a key is answered with the exact 404 response |
| ServerLemmas.QueryStringIsPartOfTheKey | src/main/java/edu/eci/arep/HttpServer.java:182-184 | `GET /greeting?name=Ana` misses a `/greeting` entry and is answered 404 |
| ServerLemmas.InstantiationFailureIs500 | src/main/java/edu/eci/arep/HttpServer.java:185-191 | a handler whose class cannot be instantiated gives the exact 500 response, whatever the handler would do |
| ServerLemmas.HandlerResultIsTheResponse | src/main/java/edu/eci/arep/HttpServer.java:193-208 | a registered, instantiable handler is called with the bound arguments; its string is returned unchanged, `null` becomes `""`, an exception ends the request |
| ServerLemmas.MalformedQueryFails | src/main/java/edu/eci/arep/HttpServer.java:195-196 | a handler with parameters and a malformed query fails with the query index error |
| ServerLemmas.SegmentText | src/main/java/edu/eci/arep/HttpServer.java:234-235 | the key is the text before the first `=`, the value the text up to the next `=` |
| ServerLemmas.AddParamsSucceeds | src/main/java/edu/eci/arep/HttpServer.java:233-236 | the segment loop succeeds exactly when every segment has a value |
| ServerLemmas.AddParamsLastWins | src/main/java/edu/eci/arep/HttpServer.java:233-236 | a key gets the value of the last segment naming it |
| ServerLemmas.AddParamsUntouched | src/main/java/edu/eci/arep/HttpServer.java:233-236 | a key no segment names keeps its entry or stays absent |
| ServerLemmas.AddParamsKeys | src/main/java/edu/eci/arep/HttpServer.java:233-236 | the keys of the result are the old keys plus the keys the segments name |
| ServerLemmas.NoQuestionMarkNoParams | src/main/java/edu/eci/arep/HttpServer.java:229-238 | a path without `?` gives the empty map |
| ServerLemmas.QueryParamsSucceeds | src/main/java/edu/eci/arep/HttpServer.java:228-239 | parsing succeeds exactly when there is no `?`, or there is text after it and every `&`-segment has a value |
| ServerLemmas.QueryParamsEntries | src/main/java/edu/eci/arep/HttpServer.java:228-239 | a parsed query maps exactly the keys its segments name, each to the value of its last segment |
| ServerLemmas.SingleParam | src/main/java/edu/eci/arep/HttpServer.java:230-236 | `route?key=value` gives exactly `{key: value}` |
| ServerLemmas.TrailingQuestionMarkIgnored | src/main/java/edu/eci/arep/HttpServer.java:230-236 | `route?key=value?` still gives exactly `{key: value}`: a `?` after the query is not an error |
| ServerLemmas.MissingValueFails | src/main/java/edu/eci/arep/HttpServer.java:231-235 | `route?key` and `route?key=` fail |
| ServerLemmas.RegisteredIsExposed | src/main/java/edu/eci/arep/HttpServer.java:316-327 | scanning the classes is registering the methods of the marked ones, in order |
| ServerLemmas.RegisterMethodsAppend | src/main/java/edu/eci/arep/HttpServer.java:319-322 | registering two method lists in turn is registering their concatenation |
| ServerLemmas.ExposedAppend | src/main/java/edu/eci/arep/HttpServer.java:316-319 | the methods exposed by two class lists are those of each, in order |
| ServerLemmas.RegisterMethodsLastWins | src/main/java/edu/eci/arep/HttpServer.java:319-322 | a route maps to the last method registered under it |
| ServerLemmas.RegisterMethodsUntouched | src/main/java/edu/eci/arep/HttpServer.java:319-322 | a route no method maps keeps its entry or stays absent |
| ServerLemmas.RegisterMethodsKeys | src/main/java/edu/eci/arep/HttpServer.java:319-322 | the routes afterwards are the old ones plus those mapped by the methods |
| ServerLemmas.ExposedMapping | src/main/java/edu/eci/arep/HttpServer.java:316-321 | a route is mapped by an exposed method exactly when a marked class has a method mapping it |
| ServerLemmas.ExposedSource | src/main/java/edu/eci/arep/HttpServer.java:316-319 | every exposed method belongs to a marked class |
| ServerLemmas.ExposedIncludes | src/main/java/edu/eci/arep/HttpServer.java:316-319 | every method of a marked class is exposed |
| ServerLemmas.RegistryKeys | src/main/java/edu/eci/arep/HttpServer.java:314-328 | after scanning, a route is registered exactly when it was before or a marked class has a method mapping it; no entry is removed |
| ServerLemmas.RegistryLastWins | src/main/java/edu/eci/arep/HttpServer.java:314-328 | a route maps to the last method mapping it in scanning order |
| ServerLemmas.UnmarkedClassAddsNothing | src/main/java/edu/eci/arep/HttpServer.java:317 | a class with neither marker adds nothing |
| ServerLemmas.ClassNameOfClassFile | src/main/java/edu/eci/arep/HttpServer.java:282-284 | `Name.class` gives the class `edu.eci.IoC.Name` |
| ServerLemmas.RemoveAllBeforeSuffix | src/main/java/edu/eci/arep/HttpServer.java:284 | removing `.class` from `Name.class` leaves `Name` |
| ServerLemmas.RemoveAllDotFreePrefix | src/main/java/edu/eci/arep/HttpServer.java:284 | a `.class` after a dot-free prefix is removed, and removal goes on in the rest of the name |
| ServerLemmas.EveryOccurrenceRemoved | src/main/java/edu/eci/arep/HttpServer.java:284 | every occurrence is removed, not only the last: `A.classB.class` gives `AB` |
| ServerLemmas.LoadedClassesOrigin | src/main/java/edu/eci/arep/HttpServer.java:281-286 | every loaded class is what `Class.forName` gave for the name of some listed `.class` file |
| ServerLemmas.LoadedClassesAll | src/main/java/edu/eci/arep/HttpServer.java:275-295 | when every `.class` file loads, the scan returns the class of each of them, in listing order |
| ServerLemmas.LoadFailureEndsScan | src/main/java/edu/eci/arep/HttpServer.java:277-293 | a class that fails to load ends the scan; the classes loaded before it are kept |
| FileManager.GetHello | src/main/java/edu/eci/IoC/ComponentFileManager.java:32-38 | the `/hello` response starts with `HTTP/1.1 200 OK\r\n` and contains the greeting |
| FileManager.GetImagePng | src/main/java/edu/eci/IoC/ComponentFileManager.java:46-64 | the `/image` response starts with `HTTP/1.1 200 OK\r\n` and ends with the page's HTML |
| FileManager.ImageBody | src/main/java/edu/eci/IoC/ComponentFileManager.java:54-63 | the page holds the heading, and the base64 text followed by `"` right after `data:image/jpeg;base64,` |
| FileManager.HtmlPage | src/main/java/edu/eci/IoC/ComponentFileManager.java:76-88 | the `/host` response starts with `HTTP/1.1 200 OK\r\n` and ends with the page's HTML |
| FileManager.PageBody | src/main/java/edu/eci/IoC/ComponentFileManager.java:79-88 | the page holds `<title>File Adder</title>` and the file text exactly between `<pre>` and `</pre>` |
| FileManager.FromArchiveToString | src/main/java/edu/eci/IoC/ComponentFileManager.java:98-108 | the reading loop returns `Joined(lines)`, each line followed by a newline |
| FileManager.GetHTMLPages | src/main/java/edu/eci/IoC/ComponentFileManager.java:73-89 | the `/host` response is the page around the joined file text |
| FileManager.FirstBlank | src/main/java/edu/eci/IoC/ComponentFileManager.java:34-36 | a found index is at or after the start and holds a blank line `\r\n\r\n` |
| FileManager.FirstBlankIsFirst | src/main/java/edu/eci/IoC/ComponentFileManager.java:34-36 | no blank line starts before the one found, and none at all when none is found |
| FileManager.ResponseLayout | src/main/java/edu/eci/IoC/ComponentFileManager.java:34-36 | a status line, one header line and a blank line before any body are read back as that head and that body |
| FileManager.HelloResponse | src/main/java/edu/eci/IoC/ComponentFileManager.java:34-37 | the `/hello` head is the status line and `Content-type: text/html`, and its body is exactly the greeting |
| FileManager.ImageResponse | src/main/java/edu/eci/IoC/ComponentFileManager.java:51-63 | the `/image` head is the status line and `Content-Type: text/html`, and its body is exactly the page |
| FileManager.HtmlPageResponse | src/main/java/edu/eci/IoC/ComponentFileManager.java:76-88 | the `/host` head is the status line and `Content-Type: text/html`, and its body is exactly the page |
| FileManager.JoinedLength | src/main/java/edu/eci/IoC/ComponentFileManager.java:98-108 | the text is as long as the lines plus one per line; no lines give `""` |
| FileManager.JoinedAppend | src/main/java/edu/eci/IoC/ComponentFileManager.java:103-105 | each read line appends the line and a newline |
| FileManager.JoinedLinesRoundTrip | src/main/java/edu/eci/IoC/ComponentFileManager.java:103-105 | cutting the text at newlines gives the lines back, then an empty piece |
| Wiring.HandlerFileLoads | src/main/java/edu/eci/arep/HttpServer.java:282-286 | every file of the handler directory is a class file whose derived name loads: `ComponentFileManager.class` gives the handler class, the other four an annotation type |
| Wiring.LoadHandlerDir | src/main/java/edu/eci/arep/HttpServer.java:275-295 | a listing of handler-directory files is scanned to its end, one class per file |
| Wiring.RegisterFour | src/main/java/edu/eci/arep/HttpServer.java:319-325 | three methods mapped to `/hello`, `/image` and `/host` and one without a mapping add exactly those three routes to any registry |
| Wiring.RegisterComponent | src/main/java/edu/eci/IoC/ComponentFileManager.java:14-73 | registering `ComponentFileManager` adds its three routes to any registry |
| Wiring.RegisterHandlerDir | src/main/java/edu/eci/arep/HttpServer.java:314-328 | registering the classes of any such listing adds the three routes when `ComponentFileManager.class` is listed and leaves the registry unchanged otherwise |
| Wiring.ComponentRegistry | src/main/java/edu/eci/arep/HttpServer.java:275-328 | scanning the handler directory, its five class files listed in any order, loads every class and registers exactly `/hello`, `/image` and `/host`: the four annotation types are unmarked and `fromArchiveToString` has no mapping |
| Wiring.RouteResponse | src/main/java/edu/eci/arep/HttpServer.java:179-208 | `GET route version` for a registered route is answered with that handler's result |
| Wiring.ServeHello | src/main/java/edu/eci/IoC/ComponentFileManager.java:32-38 | `GET /hello` is answered with the greeting response |
| Wiring.ServeImage | src/main/java/edu/eci/IoC/ComponentFileManager.java:46-64 | `GET /image` is answered with the image page, or fails when the image cannot be read |
| Wiring.ServeHost | src/main/java/edu/eci/IoC/ComponentFileManager.java:72-89 | `GET /host` is answered with the page around the file's text, or fails when the file cannot be read |
| Wiring.OtherPathsNotFound | src/main/java/edu/eci/arep/HttpServer.java:184-210 | any other path, including a route with a query string, is answered 404 |

## Left out

- Sockets, the accept loop, `System.exit`, writing the response (`sendServerResponse`) and closing resources. These are network I/O and process control. The client's lines are an input sequence, and `in.ready()` is taken to hold while lines remain; it does not affect the result.
- Reflection. `Class.forName` is a function parameter. `isAnnotationPresent`, `getMethods` and `getParameters` are fields of the descriptors. `createControllerInstance` is the `ownerInstantiable` flag, and `Method.invoke` is the descriptor's function value. The annotation types' own methods are not listed in `Wiring`'s descriptor of them: the types are unmarked, so their methods are never examined. Inherited `Object` methods are not listed in `Wiring`'s descriptor: they carry no `@GetMapping` and add nothing, like `fromArchiveToString`.
- Server.Arguments: a `null` bound to a primitive parameter would make `Method.invoke` throw `IllegalArgumentException`; slots are modelled as optional strings, so that failure is not modelled.
- `getClassProperty` and the directory walk of `getClasses`. These read system properties and the filesystem; the listing of the handler directory is an input.
- `serveStaticFile` is file I/O and is never called. `getHomeIndex` is a constant page with no logic.
- The singleton `getInstance`, the console logging, and `ServerStarter`, which only starts the server and catches only checked exceptions.
- Reading the image and HTML files and the `Base64` encoder. Their results (the base64 text and the file's lines, or `None` when reading fails) are inputs.
- Strings.EqualsIgnoreCase: folds ASCII letters only, not Java's full Unicode case mapping. This is exact for the one comparison against `"GET"`.
- Java's `String.split` takes a regular expression. The model covers the one-character delimiters the code uses (`" "`, `"\\?"`, `"&"`, `"="`).
- `String.replace(".class", "")` is modelled as removing the occurrences from left to right without overlap, as Java does.
