/**
 * The server with its one handler class, `ComponentFileManager`, registered: the
 * class as the descriptor reflection would produce, and what the server answers
 * to requests for its three routes.
 */
module Wiring {
  import opened Wrappers
  import opened Strings
  import opened Server
  import opened ServerLemmas
  import opened FileManager

  /** `getHello`, mapped to `/hello`. */
  function HelloMethod(): MethodDesc
  {
    MethodDesc(Some("/hello"), [], (args: seq<Arg>) => Returned(Some(GetHello())), true)
  }

  /**
   * `getImagePng`, mapped to `/image`; `png` is the base64 text of the image file,
   * `None` when the file cannot be read (the `IOException` escapes the handler).
   */
  function ImageMethod(png: Option<string>): MethodDesc
  {
    MethodDesc(Some("/image"), [],
      (args: seq<Arg>) => if png.Some? then Returned(Some(GetImagePng(png.value))) else Threw,
      true)
  }

  /** `getHTMLPages`, mapped to `/host`; `html` is the lines of the HTML file, `None` when it cannot be read. */
  function HostMethod(html: Option<seq<string>>): MethodDesc
  {
    MethodDesc(Some("/host"), [],
      (args: seq<Arg>) => if html.Some? then Returned(Some(HtmlPage(Joined(html.value)))) else Threw,
      true)
  }

  /** `fromArchiveToString`: public, but without `@GetMapping`. */
  function FromArchiveMethod(html: Option<seq<string>>): MethodDesc
  {
    MethodDesc(None, [Parameter(None)],
      (args: seq<Arg>) => if html.Some? then Returned(Some(Joined(html.value))) else Threw,
      true)
  }

  /** `ComponentFileManager`: marked `@Component`, with its four public static methods. */
  function ComponentFileManagerClass(png: Option<string>, html: Option<seq<string>>): ClassDesc
  {
    ClassDesc(true, false, [HelloMethod(), ImageMethod(png), HostMethod(html), FromArchiveMethod(html)])
  }

  /**
   * The simple names of the classes compiled into the handler directory `edu/eci/IoC`:
   * the handler class and the four annotation types the server imports from that
   * package.
   */
  const HandlerDirClasses: seq<string> :=
    ["Component", "ComponentFileManager", "GetMapping", "RequestParam", "RestController"]

  /** An annotation type: it loads, but is marked neither `@Component` nor `@RestController`. */
  function AnnotationClass(): ClassDesc
  {
    ClassDesc(false, false, [])
  }

  /** `Class.forName` on a class path whose package `edu.eci.IoC` holds the handler directory's classes. */
  function ClassLoader(png: Option<string>, html: Option<seq<string>>): string -> Option<ClassDesc>
  {
    (name: string) =>
      if StartsWith(name, "edu.eci.IoC.") && name[12..] in HandlerDirClasses then
        Some(if name[12..] == "ComponentFileManager" then ComponentFileManagerClass(png, html) else AnnotationClass())
      else None
  }

  /** The compiled handler class in the handler directory. */
  const ClassFile: FileEntry := FileEntry("ComponentFileManager" + ".class", true)

  /** An entry of the handler directory: the `.class` file of one of its classes. */
  predicate InHandlerDir(entry: FileEntry)
  {
    entry.isFile && EndsWith(entry.name, ".class") && entry.name[..|entry.name| - 6] in HandlerDirClasses
  }

  /** No simple class name of the handler directory contains a `.`. */
  lemma HandlerNamesHaveNoDot(base: string)
    requires base in HandlerDirClasses
    ensures '.' !in base
  {
  }

  /** The class `forName` gives for an entry of the handler directory. */
  function ClassOf(png: Option<string>, html: Option<seq<string>>, entry: FileEntry): ClassDesc
  {
    if entry == ClassFile then ComponentFileManagerClass(png, html) else AnnotationClass()
  }

  /**
   * Every file of the handler directory is a class file, and the name `getClasses`
   * derives from it loads: `ComponentFileManager.class` gives the handler class, the
   * others an annotation type.
   */
  lemma HandlerFileLoads(png: Option<string>, html: Option<seq<string>>, entry: FileEntry)
    requires InHandlerDir(entry)
    ensures IsClassFile(entry)
    ensures ClassLoader(png, html)(ClassName(entry.name)) == Some(ClassOf(png, html, entry))
  {
    var base := entry.name[..|entry.name| - 6];
    assert entry.name == base + ".class";
    HandlerNamesHaveNoDot(base);
    ClassNameOfClassFile(base);
    var name := ClassName(entry.name);
    assert name == "edu.eci.IoC." + base;
    assert name[12..] == base;
    if base == "ComponentFileManager" {
      assert entry == ClassFile;
    }
    if entry == ClassFile {
      assert base == "ComponentFileManager";
    }
  }

  /**
   * Registering three methods mapped to `/hello`, `/image` and `/host` and one without
   * a mapping adds those three routes to any registry, overwriting them.
   */
  lemma RegisterFour(m: map<string, MethodDesc>, hello: MethodDesc, image: MethodDesc, host: MethodDesc,
                     other: MethodDesc)
    requires hello.getMapping == Some("/hello") && image.getMapping == Some("/image")
    requires host.getMapping == Some("/host") && other.getMapping.None?
    ensures RegisterMethods(m, [hello, image, host, other]) ==
      m + map["/hello" := hello, "/image" := image, "/host" := host]
  {
    var ms := [hello, image, host, other];
    assert ms[1..] == [image, host, other];
    assert ms[1..][1..] == [host, other];
    assert ms[1..][1..][1..] == [other];
    var m1 := m["/hello" := hello];
    var m2 := m1["/image" := image];
    var m3 := m2["/host" := host];
    assert RegisterMethods(m, ms) == RegisterMethods(m1, ms[1..]);
    assert RegisterMethods(m1, ms[1..]) == RegisterMethods(m2, ms[1..][1..]);
    assert RegisterMethods(m2, ms[1..][1..]) == RegisterMethods(m3, ms[1..][1..][1..]);
    assert RegisterMethods(m3, ms[1..][1..][1..]) == m3;
  }

  /** Registering `ComponentFileManager` adds its three routes to any registry, overwriting them. */
  lemma RegisterComponent(png: Option<string>, html: Option<seq<string>>, m: map<string, MethodDesc>)
    ensures RegisterClass(m, ComponentFileManagerClass(png, html)) == m + Services(png, html)
  {
    RegisterFour(m, HelloMethod(), ImageMethod(png), HostMethod(html), FromArchiveMethod(html));
  }

  /** Adding the same entries twice adds them once; adding them to nothing gives them. */
  lemma UnionAgain<K, V>(m: map<K, V>, entries: map<K, V>)
    ensures (m + entries) + entries == m + entries
    ensures map[] + entries == entries
  {
  }

  /** Registering the class of a handler-directory file adds the three routes, or nothing. */
  lemma RegisterClassOf(png: Option<string>, html: Option<seq<string>>, m: map<string, MethodDesc>, entry: FileEntry)
    ensures RegisterClass(m, ClassOf(png, html, entry)) ==
      if entry == ClassFile then m + Services(png, html) else m
  {
    if entry == ClassFile {
      RegisterComponent(png, html, m);
    }
  }

  /** The classes of the entries of `listing`, in order. */
  function ClassesOf(png: Option<string>, html: Option<seq<string>>, listing: seq<FileEntry>): (r: seq<ClassDesc>)
    ensures |r| == |listing|
  {
    if listing == [] then [] else [ClassOf(png, html, listing[0])] + ClassesOf(png, html, listing[1..])
  }

  /** Every file of a handler-directory listing loads, so the scan goes to its end. */
  lemma {:induction false} LoadHandlerDir(png: Option<string>, html: Option<seq<string>>, listing: seq<FileEntry>)
    requires forall i :: 0 <= i < |listing| ==> InHandlerDir(listing[i])
    ensures LoadedClasses(listing, ClassLoader(png, html)) == ClassesOf(png, html, listing)
    decreases |listing|
  {
    if listing != [] {
      HandlerFileLoads(png, html, listing[0]);
      LoadHandlerDir(png, html, listing[1..]);
    }
  }

  /**
   * Registering the classes of a handler-directory listing leaves registry `m`
   * unchanged unless `ComponentFileManager.class` is listed, in which case its
   * three routes are added.
   */
  lemma {:induction false} RegisterHandlerDir(png: Option<string>, html: Option<seq<string>>,
                                              m: map<string, MethodDesc>, listing: seq<FileEntry>)
    ensures Registered(m, ClassesOf(png, html, listing)) ==
      if ClassFile in listing then m + Services(png, html) else m
    decreases |listing|
  {
    if listing != [] {
      var e := listing[0];
      var rest := listing[1..];
      assert listing == [e] + rest;
      var classes := ClassesOf(png, html, listing);
      assert classes[1..] == ClassesOf(png, html, rest);
      var m' := RegisterClass(m, ClassOf(png, html, e));
      assert Registered(m, classes) == Registered(m', classes[1..]);
      RegisterHandlerDir(png, html, m', rest);
      RegisterClassOf(png, html, m, e);
      if e == ClassFile {
        UnionAgain(m, Services(png, html));
      }
    }
  }

  /**
   * Scanning the handler directory, whatever order its five class files are listed
   * in, loads all five classes and registers exactly `/hello`, `/image` and `/host`:
   * the annotation types are not marked and `fromArchiveToString` has no mapping.
   */
  lemma ComponentRegistry(png: Option<string>, html: Option<seq<string>>, listing: seq<FileEntry>)
    requires forall i :: 0 <= i < |listing| ==> InHandlerDir(listing[i])
    requires ClassFile in listing
    ensures |LoadedClasses(listing, ClassLoader(png, html))| == |listing|
    ensures Registered(map[], LoadedClasses(listing, ClassLoader(png, html))) == Services(png, html)
  {
    LoadHandlerDir(png, html, listing);
    RegisterHandlerDir(png, html, map[], listing);
    UnionAgain(map[], Services(png, html));
  }

  /** The registry the server holds once `ComponentFileManager` is registered. */
  function Services(png: Option<string>, html: Option<seq<string>>): map<string, MethodDesc>
  {
    map["/hello" := HelloMethod(), "/image" := ImageMethod(png), "/host" := HostMethod(html)]
  }

  /**
   * The answer to a well-formed `GET path version` request for one of the three
   * routes, given the registry `Services(png, html)`.
   */
  lemma RouteResponse(png: Option<string>, html: Option<seq<string>>, path: string, version: string, rest: seq<string>)
    requires path in Services(png, html)
    requires ' ' !in version && version != ""
    ensures Dispatch(Services(png, html), RequestLine(["GET " + path + " " + version] + rest)) ==
      match Services(png, html)[path].invoke([])
      case Returned(Some(s)) => Respond(s)
      case Returned(None) => Respond("")
      case Threw => Fail(HandlerException)
  {
    assert "GET " + path + " " + version == "GET" + " " + path + " " + version;
    assert path == "/hello" || path == "/image" || path == "/host";
    TypicalRequestLine("GET", path, version, rest);
    assert IsGet("GET");
    HandlerResultIsTheResponse(Services(png, html), "GET", path);
  }

  /** `GET /hello` is answered with the greeting response, whatever the files hold. */
  lemma ServeHello(png: Option<string>, html: Option<seq<string>>, version: string, rest: seq<string>)
    requires ' ' !in version && version != ""
    ensures Dispatch(Services(png, html), RequestLine(["GET /hello " + version] + rest)) == Respond(GetHello())
  {
    assert "GET /hello " + version == "GET " + "/hello" + " " + version;
    RouteResponse(png, html, "/hello", version, rest);
  }

  /** `GET /image` is answered with the image page, or fails when the image cannot be read. */
  lemma ServeImage(png: Option<string>, html: Option<seq<string>>, version: string, rest: seq<string>)
    requires ' ' !in version && version != ""
    ensures Dispatch(Services(png, html), RequestLine(["GET /image " + version] + rest)) ==
      if png.Some? then Respond(GetImagePng(png.value)) else Fail(HandlerException)
  {
    assert "GET /image " + version == "GET " + "/image" + " " + version;
    RouteResponse(png, html, "/image", version, rest);
  }

  /** `GET /host` is answered with the file's text inside the HTML page, or fails when the file cannot be read. */
  lemma ServeHost(png: Option<string>, html: Option<seq<string>>, version: string, rest: seq<string>)
    requires ' ' !in version && version != ""
    ensures Dispatch(Services(png, html), RequestLine(["GET /host " + version] + rest)) ==
      if html.Some? then Respond(HtmlPage(Joined(html.value))) else Fail(HandlerException)
  {
    assert "GET /host " + version == "GET " + "/host" + " " + version;
    RouteResponse(png, html, "/host", version, rest);
  }

  /** Any other path, and the same routes with a query string appended, are answered 404. */
  lemma OtherPathsNotFound(png: Option<string>, html: Option<seq<string>>, path: string, version: string,
                            rest: seq<string>)
    requires ' ' !in path && path != "" && ' ' !in version && version != ""
    requires path != "/hello" && path != "/image" && path != "/host"
    ensures Dispatch(Services(png, html), RequestLine(["GET " + path + " " + version] + rest)) == Respond(NotFound)
  {
    assert "GET " + path + " " + version == "GET" + " " + path + " " + version;
    TypicalRequestLine("GET", path, version, rest);
    UnregisteredPathIsNotFound(Services(png, html), "GET", path);
  }
}
