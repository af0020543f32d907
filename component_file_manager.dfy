/**
 * The response builders of `ComponentFileManager`, the one handler class: a fixed
 * greeting, an HTML page embedding a base64-encoded image, and an HTML page
 * embedding the text of a file. Reading the files and base64-encoding the image
 * are left to the caller: their results are the inputs here.
 */
module FileManager {
  import opened Wrappers
  import opened Strings

  const StatusLine: string := "HTTP/1.1 200 OK"
  const BlankLine: string := "\r\n\r\n"
  const Greeting: string := "Hola Esto es una prueba de Funcionamiento"
  const ImageHeading: string := "<center><h1>Prueba Archivos PNG - Imagen</h1></center>"

  /** The `/hello` response: a 200 response that contains the greeting. */
  function GetHello(): (r: string)
    ensures StartsWith(r, "HTTP/1.1 200 OK\r\n")
    ensures Contains(r, Greeting)
  {
    var head := StatusLine + "\r\n" + "Content-type: text/html" + "\r\n\r\n";
    ContainsMiddle(head, Greeting, "");
    assert head + Greeting + "" == head + Greeting;
    head + Greeting
  }

  /** The `/image` response around the base64 text of the image file: a 200 response that ends in the page's HTML. */
  function GetImagePng(base64: string): (r: string)
    ensures StartsWith(r, "HTTP/1.1 200 OK\r\n")
    ensures EndsWith(r, ImageBody(base64))
  {
    StatusLine + "\r\n" + "Content-Type: text/html" + "\r\n\r\n" + ImageBody(base64)
  }

  /**
   * The HTML of the `/image` page: it carries the heading and, right after
   * `data:image/jpeg;base64,`, the base64 text followed by a closing quote.
   */
  function ImageBody(base64: string): (r: string)
    ensures Contains(r, ImageHeading)
    ensures Contains(r, "data:image/jpeg;base64," + base64 + "\"")
  {
    var between := "\r\n" + "         <center><img src=\"";
    var source := ImageSource(base64);
    var r := ImageOpen + ImageHeading + between + source + ImageClose;
    assert r == ImageOpen + ImageHeading + (between + source + ImageClose);
    ContainsMiddle(ImageOpen, ImageHeading, between + source + ImageClose);
    ContainsMiddle(ImageOpen + ImageHeading + between, source, ImageClose);
    r
  }

  const ImageOpen: string :=
    "<!DOCTYPE html>\r\n"
    + "<html>\r\n"
    + "    <head>\r\n"
    + "        <title>File Content</title>\r\n"
    + "    </head>\r\n"
    + "    <body>\r\n"
    + "         "
  const ImageClose: string := " alt=\"image\"></center>" + "\r\n" + "    </body>\r\n" + "</html>"

  /** The `src` attribute's value, with its closing quote. */
  function ImageSource(base64: string): string
  {
    "data:image/jpeg;base64," + base64 + "\""
  }

  /** The `/host` response around the text of the HTML file: a 200 response that ends in the page's HTML. */
  function HtmlPage(body: string): (r: string)
    ensures StartsWith(r, "HTTP/1.1 200 OK\r\n")
    ensures EndsWith(r, PageBody(body))
  {
    StatusLine + "\r\n" + "Content-Type: text/html" + "\r\n\r\n" + PageBody(body)
  }

  /**
   * The HTML of the `/host` page: it carries the `File Adder` title and the file
   * text exactly between `<pre>` and `</pre>`.
   */
  function PageBody(body: string): (r: string)
    ensures Contains(r, "<title>File Adder</title>")
    ensures Contains(r, "<pre>" + body + "</pre>")
  {
    var pre := "<pre>" + body + "</pre>";
    var r := PageOpen + PageTitle + PageMiddle + pre + PageClose;
    assert r == PageOpen + PageTitle + (PageMiddle + pre + PageClose);
    ContainsMiddle(PageOpen, PageTitle, PageMiddle + pre + PageClose);
    ContainsMiddle(PageOpen + PageTitle + PageMiddle, pre, PageClose);
    r
  }

  const PageOpen: string :=
    "<!DOCTYPE html>\r\n"
    + "<html>\r\n"
    + "    <head>\r\n"
    + "        <meta charset=\"UTF-8\">\r\n"
    + "        "
  const PageTitle: string := "<title>File Adder</title>"
  const PageMiddle: string := "\r\n" + "    </head>\r\n" + "    <body>\r\n" + "        "
  const PageClose: string := "\r\n" + "    </body>\r\n" + "</html>"

  /** The file's lines, each followed by a newline, in order. */
  function Joined(lines: seq<string>): string
  {
    if lines == [] then "" else lines[0] + "\n" + Joined(lines[1..])
  }

  /** Reads the lines of a file into one text, each line followed by `"\n"`. */
  method FromArchiveToString(lines: seq<string>) returns (body: string)
    ensures body == Joined(lines)
  {
    body := "";
    var i := 0;
    while i < |lines|
      invariant 0 <= i <= |lines|
      invariant body + Joined(lines[i..]) == Joined(lines)
    {
      var line := lines[i];
      assert lines[i..][1..] == lines[i + 1..];
      body := body + line + "\n";
      i := i + 1;
    }
  }

  /** The `/host` response for a file made of `fileLines`. */
  method GetHTMLPages(fileLines: seq<string>) returns (r: string)
    ensures r == HtmlPage(Joined(fileLines))
  {
    var body := FromArchiveToString(fileLines);
    r := HtmlPage(body);
  }

  // ---------------------------------------------------------------------------
  // Reading a response back: head and body around the first blank line

  /** A blank line, `"\r\n\r\n"`, starts at index `i` of `s`. */
  predicate BlankAt(s: string, i: nat)
  {
    i + 4 <= |s| && s[i] == '\r' && s[i + 1] == '\n' && s[i + 2] == '\r' && s[i + 3] == '\n'
  }

  /** The index of the first blank line of `s` at or after `from`. */
  function FirstBlank(s: string, from: nat): (r: Option<nat>)
    ensures r.Some? ==> from <= r.value && BlankAt(s, r.value) && OccursAt(s, BlankLine, r.value)
    decreases |s| - from
  {
    if from + 4 > |s| then None
    else if BlankAt(s, from) then
      assert s[from..from + 4] == BlankLine;
      Some(from)
    else FirstBlank(s, from + 1)
  }

  /** No blank line starts between `from` and the one `FirstBlank` finds; none at all when it finds none. */
  lemma {:induction false} FirstBlankIsFirst(s: string, from: nat, i: nat)
    requires from <= i < (match FirstBlank(s, from) case Some(k) => k case None => |s|)
    ensures !BlankAt(s, i)
    decreases |s| - from
  {
    if i > from {
      FirstBlankIsFirst(s, from + 1, i);
    }
  }

  /** A response cut at its first blank line into the head and the body. */
  function HeadAndBody(response: string): Option<(string, string)>
  {
    match FirstBlank(response, 0)
    case None => None
    case Some(k) => Some((response[..k], response[k + 4..]))
  }

  /**
   * In a status line and one header line, neither holding a carriage return, followed
   * by a blank line, the first blank line from any index up to the header's end is
   * the one after the header.
   */
  lemma {:induction false} FirstBlankLine(status: string, header: string, body: string, i: nat)
    requires '\r' !in status && '\r' !in header && header != ""
    requires i <= |status| + 2 + |header|
    ensures FirstBlank(status + "\r\n" + header + "\r\n\r\n" + body, i) == Some(|status| + 2 + |header|)
    decreases |status| + 2 + |header| - i
  {
    var s := status + "\r\n" + header + "\r\n\r\n" + body;
    var k := |status| + 2 + |header|;
    if i == k {
      assert s[k] == '\r' && s[k + 1] == '\n' && s[k + 2] == '\r' && s[k + 3] == '\n';
    } else {
      if i < |status| {
        assert s[i] == status[i];
      } else if i == |status| {
        assert s[i + 2] == header[0];
      } else if i == |status| + 1 {
        assert s[i] == '\n';
      } else {
        assert s[i] == header[i - |status| - 2];
      }
      assert !BlankAt(s, i);
      FirstBlankLine(status, header, body, i + 1);
    }
  }

  /**
   * A response made of a status line and one header line, neither holding a carriage
   * return, then a blank line, then any body, is read back as exactly that head and
   * that body.
   */
  lemma ResponseLayout(status: string, header: string, body: string)
    requires '\r' !in status && '\r' !in header && header != ""
    ensures HeadAndBody(status + "\r\n" + header + "\r\n\r\n" + body) ==
      Some((status + "\r\n" + header, body))
  {
    var s := status + "\r\n" + header + "\r\n\r\n" + body;
    FirstBlankLine(status, header, body, 0);
    var k := |status| + 2 + |header|;
    assert s[..k] == status + "\r\n" + header;
    assert s[k + 4..] == body;
  }

  /**
   * The `/hello` response has the status line and one `Content-type` header before
   * its blank line, and its body is exactly the greeting.
   */
  lemma HelloResponse()
    ensures HeadAndBody(GetHello()) == Some((StatusLine + "\r\n" + "Content-type: text/html", Greeting))
  {
    ResponseLayout(StatusLine, "Content-type: text/html", Greeting);
  }

  /**
   * The `/image` response has the status line and one `Content-Type` header before
   * its blank line, and its body is exactly the page's HTML.
   */
  lemma ImageResponse(base64: string)
    ensures HeadAndBody(GetImagePng(base64)) ==
      Some((StatusLine + "\r\n" + "Content-Type: text/html", ImageBody(base64)))
  {
    ResponseLayout(StatusLine, "Content-Type: text/html", ImageBody(base64));
  }

  /**
   * The `/host` response has the status line and one `Content-Type` header before
   * its blank line, and its body is exactly the page's HTML.
   */
  lemma HtmlPageResponse(text: string)
    ensures HeadAndBody(HtmlPage(text)) ==
      Some((StatusLine + "\r\n" + "Content-Type: text/html", PageBody(text)))
  {
    ResponseLayout(StatusLine, "Content-Type: text/html", PageBody(text));
  }

  // ---------------------------------------------------------------------------
  // Joined lines

  function TotalLength(lines: seq<string>): nat
  {
    if lines == [] then 0 else |lines[0]| + TotalLength(lines[1..])
  }

  /** The text is as long as all the lines plus one newline per line; no lines give `""`. */
  lemma {:induction false} JoinedLength(lines: seq<string>)
    ensures |Joined(lines)| == TotalLength(lines) + |lines|
    ensures lines == [] ==> Joined(lines) == ""
  {
    if lines != [] {
      JoinedLength(lines[1..]);
    }
  }

  /** Joining is appending one line and its newline at a time. */
  lemma {:induction false} JoinedAppend(lines: seq<string>, line: string)
    ensures Joined(lines + [line]) == Joined(lines) + line + "\n"
  {
    if lines == [] {
      assert lines + [line] == [line];
    } else {
      assert (lines + [line])[1..] == lines[1..] + [line];
      JoinedAppend(lines[1..], line);
    }
  }

  /**
   * Lines that hold no newline are recovered from the text by cutting it at each
   * newline; the piece after the last newline is empty.
   */
  lemma {:induction false} JoinedLinesRoundTrip(lines: seq<string>)
    requires forall i :: 0 <= i < |lines| ==> '\n' !in lines[i]
    ensures Pieces(Joined(lines), '\n') == lines + [""]
  {
    JoinedIsJoin(lines);
    PiecesJoin(lines + [""], '\n');
  }

  lemma {:induction false} JoinedIsJoin(lines: seq<string>)
    ensures Joined(lines) == Join(lines + [""], '\n')
  {
    if lines != [] {
      JoinedIsJoin(lines[1..]);
      assert (lines + [""])[1..] == lines[1..] + [""];
    }
  }
}
