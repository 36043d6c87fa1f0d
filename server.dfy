/**
 * The request handler of server.js: a switch on the request URL (exact
 * string equality) and then on the method.  An unknown URL is answered 404,
 * a known URL with a method other than GET 501.  A GET reads the route's
 * file: a page is run through resolveComponent and sent as HTML, a style
 * sheet is sent as CSS; a failed read or resolution is answered 500.
 */
module Server {
  import opened Wrappers
  import opened Scanner
  import opened Resolver

  datatype Kind = Page | Style

  /** What the switch decides from the URL and the method alone. */
  datatype Outcome = NotFound | NotImplemented | Serve(path: string, kind: Kind)

  datatype Header =
    | ContentType(mime: string)
    | ContentLength(bytes: nat)
    | ContentLanguage(lang: string)
    | ContentSecurityPolicy(policy: string)

  /** What res.writeHead(status, headers).end(body) sends. */
  datatype Response = Response(status: nat, headers: seq<Header>, body: string)

  const Csp: string := "default-src 'self'; img-src 'self' https://cdn.jsdelivr.net;"

  const PageUrls: set<string> :=
    {"/", "/bts-sio", "/contact", "/epreuve-e5", "/epreuve-e6", "/veille-technologique"}

  const StyleUrls: set<string> :=
    {"/styles/index.css", "/styles/contact.css", "/styles/epreuve-e5.css",
     "/styles/epreuve-e6.css", "/styles/veille-technologique.css",
     "/styles/bts-sio.css", "/styles/components/navbar.css"}

  /**
   * The cases of the switch on req.url, with the file each one reads, as
   * the source lists them: the six page URLs read an HTML file under
   * ./pages/, the seven style URLs a CSS file under ./styles/.
   */
  function Route(url: string): (r: Option<(string, Kind)>)
    ensures r.Some? && r.value.1 == Page <==> url in PageUrls
    ensures r.Some? && r.value.1 == Style <==> url in StyleUrls
  {
    match url
    case "/" => Some(("./pages/index.html", Page))
    case "/bts-sio" => Some(("./pages/bts-sio.html", Page))
    case "/contact" => Some(("./pages/contact.html", Page))
    case "/epreuve-e5" => Some(("./pages/epreuve-e5.html", Page))
    case "/epreuve-e6" => Some(("./pages/epreuve-e6.html", Page))
    case "/veille-technologique" => Some(("./pages/veille-technologique.html", Page))
    case "/styles/index.css" => Some(("./styles/index.css", Style))
    case "/styles/contact.css" => Some(("./styles/contact.css", Style))
    case "/styles/epreuve-e5.css" => Some(("./styles/epreuve-e5.css", Style))
    case "/styles/epreuve-e6.css" => Some(("./styles/epreuve-e6.css", Style))
    case "/styles/veille-technologique.css" => Some(("./styles/veille-technologique.css", Style))
    case "/styles/bts-sio.css" => Some(("./styles/bts-sio.css", Style))
    case "/styles/components/navbar.css" => Some(("./styles/components/navbar.css", Style))
    case _ => None
  }

  /** The root URL reads the index page. */
  lemma RootRoute(url: string)
    requires url == "/"
    ensures Route(url) == Some(("./pages/index.html", Page))
  {
  }

  // One lemma per route: the file it reads follows the naming convention.
  // These are a case split of PageConvention and StyleConvention below, kept
  // apart because proving all the routes in one lemma costs the solver too much.

  lemma BtsSioPagePath(url: string)
    requires url == "/bts-sio"
    ensures Route(url) == Some(("./pages" + url + ".html", Page))
  {
    assert Route(url).value.0 == "./pages/bts-sio.html";
    assert "./pages" + url + ".html" == "./pages/bts-sio.html";
  }

  lemma ContactPagePath(url: string)
    requires url == "/contact"
    ensures Route(url) == Some(("./pages" + url + ".html", Page))
  {
    assert Route(url).value.0 == "./pages/contact.html";
    assert "./pages" + url + ".html" == "./pages/contact.html";
  }

  lemma EpreuveE5PagePath(url: string)
    requires url == "/epreuve-e5"
    ensures Route(url) == Some(("./pages" + url + ".html", Page))
  {
    assert Route(url).value.0 == "./pages/epreuve-e5.html";
    assert "./pages" + url + ".html" == "./pages/epreuve-e5.html";
  }

  lemma EpreuveE6PagePath(url: string)
    requires url == "/epreuve-e6"
    ensures Route(url) == Some(("./pages" + url + ".html", Page))
  {
    assert Route(url).value.0 == "./pages/epreuve-e6.html";
    assert "./pages" + url + ".html" == "./pages/epreuve-e6.html";
  }

  lemma VeilleTechnologiquePagePath(url: string)
    requires url == "/veille-technologique"
    ensures Route(url) == Some(("./pages" + url + ".html", Page))
  {
    assert Route(url).value.0 == "./pages/veille-technologique.html";
    assert "./pages" + url + ".html" == "./pages/veille-technologique.html";
  }

  lemma IndexStylePath(url: string)
    requires url == "/styles/index.css"
    ensures Route(url) == Some(("." + url, Style))
  {
    assert Route(url).value.0 == "./styles/index.css";
    assert "." + url == "./styles/index.css";
  }

  lemma ContactStylePath(url: string)
    requires url == "/styles/contact.css"
    ensures Route(url) == Some(("." + url, Style))
  {
    assert Route(url).value.0 == "./styles/contact.css";
    assert "." + url == "./styles/contact.css";
  }

  lemma EpreuveE5StylePath(url: string)
    requires url == "/styles/epreuve-e5.css"
    ensures Route(url) == Some(("." + url, Style))
  {
    assert Route(url).value.0 == "./styles/epreuve-e5.css";
    assert "." + url == "./styles/epreuve-e5.css";
  }

  lemma EpreuveE6StylePath(url: string)
    requires url == "/styles/epreuve-e6.css"
    ensures Route(url) == Some(("." + url, Style))
  {
    assert Route(url).value.0 == "./styles/epreuve-e6.css";
    assert "." + url == "./styles/epreuve-e6.css";
  }

  lemma VeilleTechnologiqueStylePath(url: string)
    requires url == "/styles/veille-technologique.css"
    ensures Route(url) == Some(("." + url, Style))
  {
    assert Route(url).value.0 == "./styles/veille-technologique.css";
    assert "." + url == "./styles/veille-technologique.css";
  }

  lemma BtsSioStylePath(url: string)
    requires url == "/styles/bts-sio.css"
    ensures Route(url) == Some(("." + url, Style))
  {
    assert Route(url).value.0 == "./styles/bts-sio.css";
    assert "." + url == "./styles/bts-sio.css";
  }

  lemma ComponentsNavbarStylePath(url: string)
    requires url == "/styles/components/navbar.css"
    ensures Route(url) == Some(("." + url, Style))
  {
    assert Route(url).value.0 == "./styles/components/navbar.css";
    assert "." + url == "./styles/components/navbar.css";
  }

  /** Every other page URL /<name> reads ./pages/<name>.html. */
  lemma PageConvention(url: string)
    requires url in PageUrls && url != "/"
    ensures Route(url) == Some(("./pages" + url + ".html", Page))
  {
    if url == "/bts-sio" {
      BtsSioPagePath(url);
    } else if url == "/contact" {
      ContactPagePath(url);
    } else if url == "/epreuve-e5" {
      EpreuveE5PagePath(url);
    } else if url == "/epreuve-e6" {
      EpreuveE6PagePath(url);
    } else if url == "/veille-technologique" {
      VeilleTechnologiquePagePath(url);
    }
  }

  /** A style URL reads the file at "." followed by the URL. */
  lemma StyleConvention(url: string)
    requires url in StyleUrls
    ensures Route(url) == Some(("." + url, Style))
  {
    if url == "/styles/index.css" {
      IndexStylePath(url);
    } else if url == "/styles/contact.css" {
      ContactStylePath(url);
    } else if url == "/styles/epreuve-e5.css" {
      EpreuveE5StylePath(url);
    } else if url == "/styles/epreuve-e6.css" {
      EpreuveE6StylePath(url);
    } else if url == "/styles/veille-technologique.css" {
      VeilleTechnologiqueStylePath(url);
    } else if url == "/styles/bts-sio.css" {
      BtsSioStylePath(url);
    } else if url == "/styles/components/navbar.css" {
      ComponentsNavbarStylePath(url);
    }
  }

  /** The switch: 404 for an unknown URL, 501 for a known one with another method than GET. */
  function Dispatch(url: string, verb: string): (o: Outcome)
    ensures o == NotFound <==> Route(url).None?
    ensures o == NotImplemented <==> Route(url).Some? && verb != "GET"
    ensures o.Serve? ==> verb == "GET" && Route(url) == Some((o.path, o.kind))
  {
    match Route(url)
    case None => NotFound
    case Some((path, kind)) => if verb == "GET" then Serve(path, kind) else NotImplemented
  }

  /** Matching is exact: a trailing slash, a query string or a file name is another URL. */
  lemma ExactUrlMatch(verb: string)
    ensures Dispatch("/contact/", verb) == NotFound
    ensures Dispatch("/?lang=fr", verb) == NotFound
    ensures Dispatch("/index.html", verb) == NotFound
    ensures Dispatch("/styles/index.css", "POST") == NotImplemented
    ensures Dispatch("/styles/index.css", "get") == NotImplemented
  {
    assert Route("/contact/").None? && Route("/?lang=fr").None? && Route("/index.html").None?;
  }

  /** The number of bytes the UTF-8 encoding of one character takes. */
  function Utf8Width(c: char): nat {
    if c as int < 0x80 then 1
    else if c as int < 0x800 then 2
    else if c as int < 0x1_0000 then 3
    else 4
  }

  /** The length of the UTF-8 encoding of s, which is what Buffer.from(s).length counts. */
  function Utf8Length(s: string): (n: nat)
    ensures |s| <= n <= 4 * |s|
  {
    if s == [] then 0 else Utf8Width(s[0]) + Utf8Length(s[1..])
  }

  predicate IsAscii(s: string) {
    forall i :: 0 <= i < |s| ==> s[i] as int < 0x80
  }

  /** A text takes exactly one byte per character iff it is ASCII. */
  lemma {:induction false} Utf8LengthAscii(s: string)
    ensures Utf8Length(s) == |s| <==> IsAscii(s)
  {
    if s != [] {
      Utf8LengthAscii(s[1..]);
      if IsAscii(s) {
        assert IsAscii(s[1..]) by {
          forall i | 0 <= i < |s[1..]| ensures s[1..][i] as int < 0x80 {
            assert s[1..][i] == s[i + 1];
          }
        }
      }
      if Utf8Length(s) == |s| {
        assert Utf8Width(s[0]) == 1;
        forall i | 0 <= i < |s| ensures s[i] as int < 0x80 {
          if i > 0 {
            assert s[i] == s[1..][i - 1];
          }
        }
      }
    }
  }

  /** The lengths of the encodings of two texts add up. */
  lemma {:induction false} Utf8LengthConcat(a: string, b: string)
    ensures Utf8Length(a + b) == Utf8Length(a) + Utf8Length(b)
  {
    if a != [] {
      assert (a + b)[0] == a[0];
      assert (a + b)[1..] == a[1..] + b;
      Utf8LengthConcat(a[1..], b);
    } else {
      assert a + b == b;
    }
  }

  /**
   * A substitution changes the byte length of a page by the bytes of the
   * content put in minus the bytes of the token taken out.
   */
  lemma SubstitutedLength(s: string, m: Match, content: string)
    requires m.start <= m.end <= |s|
    ensures Utf8Length(Substitute(s, m, content)) + Utf8Length(s[m.start..m.end]) == Utf8Length(s) + Utf8Length(content)
  {
    var before, token, after := s[..m.start], s[m.start..m.end], s[m.end..];
    assert s == before + token + after;
    assert Substitute(s, m, content) == before + content + after;
    Utf8LengthConcat(before + token, after);
    Utf8LengthConcat(before, token);
    Utf8LengthConcat(before + content, after);
    Utf8LengthConcat(before, content);
  }

  /** The value of the first content-length header, if there is one. */
  function DeclaredLength(headers: seq<Header>): Option<nat> {
    if headers == [] then None
    else if headers[0].ContentLength? then Some(headers[0].bytes)
    else DeclaredLength(headers[1..])
  }

  /**
   * The callback of readFile (and, for a page, of resolveComponent): a
   * failure gives an empty 500, a success 200 with headers chosen by kind and
   * a content-length equal to the number of UTF-8 bytes of the body sent.
   */
  function Respond(kind: Kind, content: Option<string>): (r: Response)
    ensures r.status == 200 <==> content.Some?
    ensures r.status == 500 <==> content.None?
    ensures content.None? ==> r.headers == [] && r.body == ""
    ensures content.Some? ==> r.body == content.value && DeclaredLength(r.headers) == Some(Utf8Length(r.body))
    ensures content.Some? && IsAscii(content.value) ==> DeclaredLength(r.headers) == Some(|r.body|)
    ensures content.Some? && kind == Page ==>
      r.headers == [ContentType("text/html"), ContentLength(Utf8Length(r.body)),
                    ContentLanguage("fr"), ContentSecurityPolicy(Csp)]
    ensures content.Some? && kind == Style ==>
      r.headers == [ContentType("text/css"), ContentLength(Utf8Length(r.body))]
  {
    match content
    case None => Response(500, [], "")
    case Some(body) =>
      Utf8LengthAscii(body);
      match kind
      case Page =>
        Response(200, [ContentType("text/html"), ContentLength(Utf8Length(body)),
                       ContentLanguage("fr"), ContentSecurityPolicy(Csp)], body)
      case Style =>
        Response(200, [ContentType("text/css"), ContentLength(Utf8Length(body))], body)
  }

  /**
   * The request handler.  The files are what readFile can read; fuel bounds
   * the substitutions of resolveComponent for a page.
   */
  method Handle(files: Files, url: string, verb: string, fuel: nat) returns (resp: Response)
    ensures Route(url).None? ==> resp == Response(404, [], "")
    ensures Route(url).Some? && verb != "GET" ==> resp == Response(501, [], "")
    ensures Route(url).Some? && verb == "GET" && Route(url).value.0 !in files ==>
      resp == Response(500, [], "")
    ensures Route(url).Some? && verb == "GET" && Route(url).value.0 in files ==>
      var (path, kind) := Route(url).value;
      resp == match kind
        case Style => Respond(Style, Some(files[path]))
        case Page =>
          match Resolved(files, files[path], fuel)
          case Ok(page) => Respond(Page, Some(page))
          case Err(_) => Respond(Page, None)
    ensures resp.status == 200 ==> DeclaredLength(resp.headers) == Some(Utf8Length(resp.body))
    ensures resp.status == 200 && Route(url).value.1 == Page ==> forall m :: !IsToken(resp.body, m)
  {
    match Dispatch(url, verb)
    case NotFound =>
      resp := Response(404, [], "");
    case NotImplemented =>
      resp := Response(501, [], "");
    case Serve(path, kind) =>
      if path !in files {
        resp := Respond(kind, None);
      } else if kind == Style {
        resp := Respond(Style, Some(files[path]));
      } else {
        var page := ResolveComponent(files, files[path], fuel);
        if page.Ok? {
          ResolvedHasNoToken(files, files[path], fuel);
          resp := Respond(Page, Some(page.value));
        } else {
          resp := Respond(Page, None);
        }
      }
  }
}
