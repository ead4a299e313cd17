/**
 * The GUI server (gui/server/server.go): the application path and URL it
 * derives at creation, its registries (session creator names, extra
 * headers, root head HTML, sessions and their handlers), the static
 * directory path rules, the routing of a request path and the wire
 * encoding of an event response.
 *
 * HTTP itself (the mux, cookies, the file server, the browser) is not
 * modelled: a request is its URL path, and the response of an event is
 * the text handed to a Writer.
 */
module Servers {
  import opened Wrappers
  import opened Decimal
  import opened Ids
  import Text
  import opened Sessions
  import opened Writers

  /** The address used when none is given. */
  const DefaultAddr := "localhost:3434"
  /** The CSS theme a server starts with. */
  const ThemeDefault := "default"
  /** The default name of the session id cookie. */
  const DefaultSessIDCookieName := "gui-sessid"

  /** App path-relative path of the GUI static contents. */
  const PathStatic := "_gui_static/"
  /** App path-relative path of the session check. */
  const PathSessCheck := "_sess_ch"
  /** Window-relative path of an event. */
  const PathEvent := "e"
  /** Window-relative path of a component render. */
  const PathRenderComp := "rc"

  const EmptyStaticPathError := "path cannot be empty string"

  /** The application path: "/" without an app name, else "/name/". */
  function AppPath(appName: string): (p: string)
    ensures |p| >= 1 && p[0] == '/' && p[|p| - 1] == '/'
    ensures appName == "" <==> p == "/"
    ensures appName != "" ==> p[1..|p| - 1] == appName
  {
    if appName == "" then "/" else "/" + appName + "/"
  }

  /** The address the server listens on: the default for an empty one. */
  function ListenAddr(addr: string): (a: string)
    ensures a != ""
    ensures addr != "" ==> a == addr
  {
    if addr == "" then DefaultAddr else addr
  }

  /** Secure (HTTPS) mode needs both a certificate and a key file. */
  predicate IsSecure(certFile: string, keyFile: string) {
    certFile != "" && keyFile != ""
  }

  /** The application URL: the scheme, the address and the app path. */
  function AppURL(secure: bool, addr: string, appPath: string): (u: string)
    ensures Text.HasPrefix(u, "https://") <==> secure
    ensures u == (if secure then "https://" else "http://") + addr + appPath
  {
    var scheme := if secure then "https://" else "http://";
    assert !secure ==> !Text.HasPrefix(scheme + addr + appPath, "https://") by {
      if !secure && |scheme + addr + appPath| >= 8 {
        assert (scheme + addr + appPath)[4] == ':' && "https://"[4] == 's';
      }
    }
    scheme + addr + appPath
  }

  /** What serveHTTP does with a request path. */
  datatype Route =
    | NotFound
    | SessCheck
    | WinList
    | Event(win: string)
    | RenderComp(win: string)
    | RenderWin(win: string)

  /**
   * serveHTTP's routing: the path is split at "/", the first part (and the
   * app name, when there is one) is dropped, and the rest decides. Only a
   * path with an app name and no "/" at all has too few parts.
   */
  function ServeRoute(appName: string, urlPath: string): (r: Route)
    ensures r.NotFound? <==> appName != "" && '/' !in urlPath
    ensures !r.NotFound? ==> r == Dispatch(Text.Split(urlPath, '/')[(if appName == "" then 1 else 2)..])
  {
    var parts := Text.Split(urlPath, '/');
    if appName == "" then
      if |parts| < 1 then NotFound else Dispatch(parts[1..])
    else
      if |parts| < 2 then NotFound else Dispatch(parts[2..])
  }

  /** The first part names a window: it is neither empty nor the session check. */
  predicate NamesWindow(parts: seq<string>) {
    |parts| >= 1 && parts[0] != "" && parts[0] != PathSessCheck
  }

  /**
   * The decision on the app-relative parts of a request path: the session
   * check, the window list when no window is named, else the named window
   * with the second part choosing between an event, a component render and
   * the whole window.
   */
  function Dispatch(parts: seq<string>): (r: Route)
    ensures !r.NotFound?
    ensures r.SessCheck? <==> |parts| >= 1 && parts[0] == PathSessCheck
    ensures r.WinList? <==> |parts| == 0 || parts[0] == ""
    ensures r.Event? <==> NamesWindow(parts) && |parts| >= 2 && parts[1] == PathEvent
    ensures r.RenderComp? <==> NamesWindow(parts) && |parts| >= 2 && parts[1] == PathRenderComp
    ensures r.RenderWin? <==> NamesWindow(parts) && (|parts| < 2 || (parts[1] != PathEvent && parts[1] != PathRenderComp))
    ensures r.Event? || r.RenderComp? || r.RenderWin? ==> r.win == parts[0]
  {
    if |parts| >= 1 && parts[0] == PathSessCheck then SessCheck
    else if |parts| < 1 || parts[0] == "" then WinList
    else
      var path := if |parts| >= 2 then parts[1] else "";
      if path == PathEvent then Event(parts[0])
      else if path == PathRenderComp then RenderComp(parts[0])
      else RenderWin(parts[0])
  }

  /** A window name a client can put in a path. */
  predicate WindowName(win: string) {
    win != "" && '/' !in win && win != PathSessCheck
  }

  /** The request path the client sends for a route: the app path, then the route's own part. */
  function RoutePath(appPath: string, r: Route): string
    requires !r.NotFound?
  {
    appPath + RouteTail(r)
  }

  /** The app-relative part of a route's request path. */
  function RouteTail(r: Route): string
    requires !r.NotFound?
  {
    match r
    case SessCheck => PathSessCheck
    case WinList => ""
    case Event(w) => w + "/" + PathEvent
    case RenderComp(w) => w + "/" + PathRenderComp
    case RenderWin(w) => w
  }

  /** After the app path, the parts of the rest of the path alone decide the route. */
  lemma RouteAfterAppPath(appName: string, tail: string)
    requires '/' !in appName
    ensures ServeRoute(appName, AppPath(appName) + tail) == Dispatch(Text.Split(tail, '/'))
  {
    if appName == "" {
      assert AppPath(appName) + tail == "" + ['/'] + tail;
      Text.SplitCons("", tail, '/');
    } else {
      var rest := appName + ['/'] + tail;
      assert AppPath(appName) + tail == "" + ['/'] + rest;
      Text.SplitCons("", rest, '/');
      Text.SplitCons(appName, tail, '/');
      assert ([""] + ([appName] + Text.Split(tail, '/')))[2..] == Text.Split(tail, '/');
    }
  }

  /** Every route but NotFound is reached by the path the client builds for it. */
  lemma RouteRoundTrip(appName: string, r: Route)
    requires '/' !in appName && !r.NotFound?
    requires r.Event? || r.RenderComp? || r.RenderWin? ==> WindowName(r.win)
    ensures ServeRoute(appName, RoutePath(AppPath(appName), r)) == r
  {
    var segs := RouteSegments(r);
    RouteAfterAppPath(appName, RouteTail(r));
    Text.SplitJoin(segs, '/');
  }

  /** The app-relative parts of a route's path. */
  function RouteSegments(r: Route): (segs: seq<string>)
    requires !r.NotFound?
    ensures |segs| >= 1 && Text.Join(segs, '/') == RouteTail(r)
    ensures (r.Event? || r.RenderComp? || r.RenderWin? ==> WindowName(r.win)) ==>
      (forall i :: 0 <= i < |segs| ==> '/' !in segs[i]) && Dispatch(segs) == r
  {
    match r
    case SessCheck => [PathSessCheck]
    case WinList => [""]
    case Event(w) =>
      assert [w, PathEvent][1..] == [PathEvent];
      [w, PathEvent]
    case RenderComp(w) =>
      assert [w, PathRenderComp][1..] == [PathRenderComp];
      [w, PathRenderComp]
    case RenderWin(w) => [w]
  }

  /** With an app name, a path with no second part is not found. */
  lemma RouteNoAppName(appName: string, urlPath: string)
    requires appName != "" && '/' !in urlPath
    ensures ServeRoute(appName, urlPath) == NotFound
  {
    Text.SplitJoin([urlPath], '/');
  }

  /** The path with one leading "/" dropped, if it has one. */
  function TrimSlash(path: string): (p: string)
    ensures Text.HasPrefix(path, "/") ==> path == "/" + p
    ensures !Text.HasPrefix(path, "/") ==> p == path
  {
    if Text.HasPrefix(path, "/") then path[1..] else path
  }

  /** The path with a "/" added unless it ends in one. */
  function AddSlash(p: string): (q: string)
    ensures |q| >= 1 && q[|q| - 1] == '/'
    ensures Text.HasSuffix(p, "/") ==> q == p
    ensures !Text.HasSuffix(p, "/") ==> q == p + "/"
  {
    if Text.HasSuffix(p, "/") then p else p + "/"
  }

  /**
   * AddStaticDir's path rules: one leading "/" is dropped, an empty path is
   * an error, a missing trailing "/" is added and the static-content path
   * is reserved. The result is the path the directory is served under.
   */
  function StaticDirPath(appPath: string, path: string): (r: Result<string, string>)
    ensures r.Ok? ==> Text.HasPrefix(r.value, appPath) && Text.HasSuffix(r.value, "/")
    ensures r.Ok? ==> r.value != appPath + PathStatic
  {
    var p := TrimSlash(path);
    if p == "" then Err(EmptyStaticPathError)
    else
      var orig := AddSlash(p);
      var full := appPath + orig;
      if full == appPath + PathStatic || full == appPath + PathSessCheck then
        Err("Path cannot be '" + orig + "' (reserved)!")
      else
        assert full[..|appPath|] == appPath;
        assert full[|full| - 1] == '/';
        Ok(full)
  }

  /**
   * The session-check path does not end in "/", so the normalised path never
   * equals it: that test in AddStaticDir never rejects anything.
   */
  lemma StaticDirNeverSessCheck(appPath: string, path: string)
    ensures appPath + AddSlash(TrimSlash(path)) != appPath + PathSessCheck
  {
    var orig := AddSlash(TrimSlash(path));
    assert (appPath + orig)[|appPath|..] == orig;
    assert (appPath + PathSessCheck)[|appPath|..] == PathSessCheck;
    assert orig[|orig| - 1] != PathSessCheck[|PathSessCheck| - 1];
  }

  /** The only paths AddStaticDir refuses: the empty one and the static-content path. */
  lemma StaticDirErrors(appPath: string, path: string)
    ensures StaticDirPath(appPath, path).Err? <==>
      path == "" || path == "/" || path == "_gui_static" || path == "_gui_static/"
      || path == "/_gui_static" || path == "/_gui_static/"
  {
    var p := TrimSlash(path);
    StaticDirNeverSessCheck(appPath, path);
    if p != "" {
      var orig := AddSlash(p);
      assert (appPath + orig)[|appPath|..] == orig;
      assert (appPath + PathStatic)[|appPath|..] == PathStatic;
      StaticSlash(p);
    }
    StaticTrim(path, p);
  }

  /** The static-content path is what a slash-ended or bare "_gui_static" becomes. */
  lemma StaticSlash(p: string)
    requires p != ""
    ensures AddSlash(p) == PathStatic <==> p == "_gui_static" || p == PathStatic
  {
    if !Text.HasSuffix(p, "/") && AddSlash(p) == PathStatic {
      assert p == (p + "/")[..|p|];
    }
    if p == "_gui_static" {
      assert p[|p| - 1] == 'c';
    }
  }

  /** The trimmed path, for the six refused paths. */
  lemma StaticTrim(path: string, p: string)
    requires p == TrimSlash(path)
    ensures p == "" <==> path == "" || path == "/"
    ensures p == "_gui_static" <==> path == "_gui_static" || path == "/_gui_static"
    ensures p == PathStatic <==> path == PathStatic || path == "/_gui_static/"
  {
    if Text.HasPrefix(path, "/") {
      assert path == "/" + p && path[0] == '/';
    } else {
      assert Text.HasPrefix("/", "/") && Text.HasPrefix("/_gui_static", "/") && Text.HasPrefix("/_gui_static/", "/");
    }
  }

  /** html with its first occurrence in heads taken out. */
  function RemoveFirst(heads: seq<string>, html: string): (r: seq<string>)
    ensures html !in heads ==> r == heads
    ensures html in heads ==> |r| == |heads| - 1
    ensures multiset(r) == multiset(heads) - multiset{html}
  {
    if heads == [] then []
    else
      assert heads == [heads[0]] + heads[1..];
      if heads[0] == html then heads[1..]
      else [heads[0]] + RemoveFirst(heads[1..], html)
  }

  /** Taking out the first occurrence splices the list at its index. */
  lemma {:induction false} RemoveFirstAt(heads: seq<string>, html: string, i: nat)
    requires i < |heads| && heads[i] == html && html !in heads[..i]
    ensures RemoveFirst(heads, html) == heads[..i] + heads[i + 1..]
  {
    if i > 0 {
      var tail := heads[1..];
      assert heads[..i] == [heads[0]] + tail[..i - 1];
      assert heads[0] != html && html !in tail[..i - 1];
      assert tail[i..] == heads[i + 1..];
      RemoveFirstAt(tail, html, i - 1);
      assert RemoveFirst(heads, html) == [heads[0]] + RemoveFirst(tail, html);
    }
  }

  /** Removing a head HTML just added, that was not there before, restores the list. */
  lemma {:induction false} RemoveFirstAdded(heads: seq<string>, html: string)
    requires html !in heads
    ensures RemoveFirst(heads + [html], html) == heads
  {
    RemoveFirstAt(heads + [html], html, |heads|);
    assert (heads + [html])[..|heads|] == heads;
  }

  /** A callback made to a registered session handler. */
  datatype Notice = Created(handler: nat, sessID: string) | Removed(handler: nat, sessID: string)

  /** The Removed callbacks, in registration order, for the session with this id. */
  function RemovedNotices(handlers: nat, sessID: string): (ns: seq<Notice>)
    ensures |ns| == handlers
    ensures forall h :: 0 <= h < handlers ==> ns[h] == Removed(h, sessID)
  {
    seq(handlers, (h: int) requires 0 <= h => Removed(h, sessID))
  }

  /** strconv.Atoi's value, or -1 when the text does not parse. */
  function ParseIntParam(value: string): (n: int)
    ensures Atoi(value).Some? ==> n == Atoi(value).value
    ensures Atoi(value).None? ==> n == -1
  {
    match Atoi(value)
    case Some(n) => n
    case None => -1
  }

  /** parseIntParam reads back every number, and reads a missing parameter as -1. */
  lemma ParseIntParamItoa(n: Int64)
    ensures ParseIntParam(Itoa(n)) == n
    ensures ParseIntParam("") == -1
  {
    AtoiItoa(n);
  }

  /** The ids of the dirty components, each after a comma. */
  function DirtyList(ids: seq<ID>): string {
    if ids == [] then "" else DirtyList(ids[..|ids| - 1]) + "," + Itoa(ids[|ids| - 1])
  }

  /** The dirty action: "2" and the dirty list. */
  function DirtyAction(dirty: seq<ID>): string {
    "2" + DirtyList(dirty)
  }

  /** The focus action: "3,<id>". */
  function FocusAction(id: ID): string {
    "3," + Itoa(id)
  }

  /**
   * The response text of an event: a reload is "1,<window>"; otherwise
   * the dirty action, then the focus action, joined by ";" when both are
   * there; "0" when there is neither.
   */
  function EventResponse(reload: bool, reloadWin: string, dirty: seq<ID>, focused: Option<ID>): (r: string)
    ensures |r| >= 1 && r[0] == (if reload then '1' else if dirty != [] then '2' else if focused.Some? then '3' else '0')
    ensures r == "0" <==> !reload && dirty == [] && focused.None?
  {
    if reload then "1," + reloadWin
    else if dirty == [] then (if focused.None? then "0" else FocusAction(focused.value))
    else DirtyAction(dirty) + (if focused.Some? then ";" + FocusAction(focused.value) else "")
  }

  /** No number's text holds a ';' or a ','. */
  lemma ItoaNoSeparators(x: int)
    ensures ';' !in Itoa(x) && ',' !in Itoa(x)
  {
    var s := Itoa(x);
    if x < 0 {
      assert s == [s[0]] + s[1..];
      assert AllDigits(s[1..]);
    }
  }

  lemma {:induction false} DirtyListNoSemicolon(ids: seq<ID>)
    ensures ';' !in DirtyList(ids)
  {
    if ids != [] {
      DirtyListNoSemicolon(ids[..|ids| - 1]);
      ItoaNoSeparators(ids[|ids| - 1]);
    }
  }

  /**
   * The first character of a response is its action code, and without a
   * reload a ';' occurs exactly when there are both dirty components and a
   * focused one.
   */
  lemma EventResponseShape(reload: bool, reloadWin: string, dirty: seq<ID>, focused: Option<ID>)
    ensures var r := EventResponse(reload, reloadWin, dirty, focused);
      r[0] == (if reload then '1' else if dirty != [] then '2' else if focused.Some? then '3' else '0')
    ensures !reload ==> (';' in EventResponse(reload, reloadWin, dirty, focused) <==> dirty != [] && focused.Some?)
  {
    DirtyListNoSemicolon(dirty);
    if focused.Some? {
      ItoaNoSeparators(focused.value);
    }
  }

  class Server<V> {
    const appName: string
    const addr: string
    const secure: bool
    const appPath: string
    const appURL: string
    const certFile: string
    const keyFile: string
    /** The public session, which the server itself is. */
    const public: Session<V>
    var sessions: map<string, Session<V>>
    var sessCreatorNames: map<string, string>
    /** The number of registered session handlers. */
    var handlers: nat
    /** The callbacks made to the session handlers, in order. */
    var notices: seq<Notice>
    var theme: string
    var headers: map<string, seq<string>>
    var rootHeads: seq<string>
    var sessIDCookieName: string

    /**
     * newServerImpl: the address defaults, the app path and URL are
     * derived, and the certificate and key are kept only in secure mode.
     */
    constructor(appName: string, addr: string, certFile: string, keyFile: string, now: int)
      ensures this.appName == appName && this.addr == ListenAddr(addr)
      ensures appPath == AppPath(appName)
      ensures secure == IsSecure(certFile, keyFile)
      ensures appURL == AppURL(secure, this.addr, appPath)
      ensures this.certFile == (if secure then certFile else "")
      ensures this.keyFile == (if secure then keyFile else "")
      ensures fresh(public) && !public.Private() && public.windows == map[] && public.attrs == map[]
      ensures sessions == map[] && sessCreatorNames == map[] && handlers == 0 && notices == []
      ensures theme == ThemeDefault && sessIDCookieName == DefaultSessIDCookieName
      ensures headers == map[] && rootHeads == []
    {
      this.appName := appName;
      var a := ListenAddr(addr);
      this.addr := a;
      var p := AppPath(appName);
      appPath := p;
      var sec := IsSecure(certFile, keyFile);
      secure := sec;
      appURL := AppURL(sec, a, p);
      this.certFile := if sec then certFile else "";
      this.keyFile := if sec then keyFile else "";
      public := new Session(false, seq(IdLength, _ => 0), now);
      sessions := map[];
      sessCreatorNames := map[];
      handlers := 0;
      notices := [];
      theme := ThemeDefault;
      headers := map[];
      rootHeads := [];
      sessIDCookieName := DefaultSessIDCookieName;
    }

    /** AddSessCreatorName: an empty name is ignored. */
    method AddSessCreatorName(name: string, text: string)
      modifies this
      ensures name != "" ==> sessCreatorNames == old(sessCreatorNames)[name := text]
      ensures name == "" ==> sessCreatorNames == old(sessCreatorNames)
      ensures sessions == old(sessions) && headers == old(headers) && rootHeads == old(rootHeads)
      ensures handlers == old(handlers) && notices == old(notices) && theme == old(theme)
      ensures sessIDCookieName == old(sessIDCookieName)
    {
      if |name| > 0 {
        sessCreatorNames := sessCreatorNames[name := text];
      }
    }

    /** AddSHandler: one more session handler. */
    method AddSHandler()
      modifies this
      ensures handlers == old(handlers) + 1
      ensures sessions == old(sessions) && notices == old(notices) && sessCreatorNames == old(sessCreatorNames)
      ensures theme == old(theme) && headers == old(headers) && rootHeads == old(rootHeads)
      ensures sessIDCookieName == old(sessIDCookieName)
    {
      handlers := handlers + 1;
    }

    /**
     * removeSess2: a private session is removed and every handler told, in
     * order; the public session is left alone.
     */
    method RemoveSess2(sess: Session<V>)
      modifies this
      ensures sess.Private() ==> sessions == old(sessions) - {sess.id}
      ensures sess.Private() ==> notices == old(notices) + RemovedNotices(handlers, sess.id)
      ensures !sess.Private() ==> sessions == old(sessions) && notices == old(notices)
      ensures handlers == old(handlers) && sessCreatorNames == old(sessCreatorNames)
      ensures theme == old(theme) && headers == old(headers) && rootHeads == old(rootHeads)
      ensures sessIDCookieName == old(sessIDCookieName)
    {
      if sess.Private() {
        var id := sess.id;
        for h := 0 to handlers
          invariant notices == old(notices) + RemovedNotices(h, id)
          invariant sessions == old(sessions) && handlers == old(handlers) && sessCreatorNames == old(sessCreatorNames)
          invariant theme == old(theme) && headers == old(headers) && rootHeads == old(rootHeads)
          invariant sessIDCookieName == old(sessIDCookieName)
        {
          assert RemovedNotices(h + 1, id) == RemovedNotices(h, id) + [Removed(h, id)];
          notices := notices + [Removed(h, id)];
        }
        sessions := sessions - {id};
      }
    }

    /** SetHeaders: the stored headers become a copy of the argument. */
    method SetHeaders(hs: map<string, seq<string>>)
      modifies this
      ensures headers == hs
      ensures sessions == old(sessions) && rootHeads == old(rootHeads) && sessCreatorNames == old(sessCreatorNames)
      ensures handlers == old(handlers) && notices == old(notices) && theme == old(theme)
      ensures sessIDCookieName == old(sessIDCookieName)
    {
      headers := CopyHeaders(hs);
    }

    /** Headers: a copy of the stored headers. */
    method Headers() returns (hs: map<string, seq<string>>)
      ensures hs == headers
    {
      hs := CopyHeaders(headers);
    }

    /** AddRootHeadHTML: the text goes last. */
    method AddRootHeadHTML(html: string)
      modifies this
      ensures rootHeads == old(rootHeads) + [html]
      ensures sessions == old(sessions) && headers == old(headers)
      ensures sessCreatorNames == old(sessCreatorNames) && handlers == old(handlers) && notices == old(notices)
      ensures theme == old(theme) && sessIDCookieName == old(sessIDCookieName)
    {
      rootHeads := rootHeads + [html];
    }

    /** RemoveRootHeadHTML: the first equal entry goes; the rest keep their order. */
    method RemoveRootHeadHTML(html: string)
      modifies this
      ensures rootHeads == RemoveFirst(old(rootHeads), html)
      ensures sessions == old(sessions) && headers == old(headers)
      ensures sessCreatorNames == old(sessCreatorNames) && handlers == old(handlers) && notices == old(notices)
      ensures theme == old(theme) && sessIDCookieName == old(sessIDCookieName)
    {
      var i := 0;
      while i < |rootHeads|
        invariant 0 <= i <= |rootHeads| && rootHeads == old(rootHeads)
        invariant html !in rootHeads[..i]
      {
        if rootHeads[i] == html {
          RemoveFirstAt(rootHeads, html, i);
          rootHeads := rootHeads[..i] + rootHeads[i + 1..];
          return;
        }
        assert rootHeads[..i + 1] == rootHeads[..i] + [rootHeads[i]];
        i := i + 1;
      }
      assert rootHeads[..i] == rootHeads;
    }
  }

  /** The copy loop of SetHeaders and Headers: every key with its values. */
  method CopyHeaders(hs: map<string, seq<string>>) returns (copy: map<string, seq<string>>)
    ensures copy == hs
  {
    copy := map[];
    var rest := hs.Keys;
    while rest != {}
      invariant rest <= hs.Keys
      invariant forall k :: k in copy <==> k in hs && k !in rest
      invariant forall k :: k in copy ==> copy[k] == hs[k]
      decreases rest
    {
      var k :| k in rest;
      copy := copy[k := hs[k]];
      rest := rest - {k};
    }
    assert copy.Keys == hs.Keys;
  }

  /** The sink took what fits of text. */
  twostate predicate Took(sink: Sink, text: string)
    reads sink
  {
    && sink.out == old(sink.out) + Capped(old(sink.room), text)
    && sink.room == old(sink.room) - |Capped(old(sink.room), text)|
  }

  /** The reload action: "1,<window>". */
  method WriteReload(w: Writer, reloadWin: string)
    requires IntsCached(w.ints)
    modifies w.sink
    ensures Took(w.sink, "1," + reloadWin)
  {
    var vs := [VInt(1), VBytes(","), VString(reloadWin)];
    assert Itoa(1) == "1";
    Flatten3(Renders(vs), "1", ",", reloadWin);
    WritevsCapped(w.sink.room, vs, "1," + reloadWin);
    var _, _ := w.Writevs(vs);
  }

  /** The focus action: "3,<id>". */
  method WriteFocus(w: Writer, id: ID)
    requires IntsCached(w.ints)
    modifies w.sink
    ensures Took(w.sink, FocusAction(id))
  {
    var vs := [VInt(3), VBytes(","), VInt(id)];
    assert Itoa(3) == "3";
    Flatten3(Renders(vs), "3", ",", Itoa(id));
    WritevsCapped(w.sink.room, vs, "3," + Itoa(id));
    var _, _ := w.Writevs(vs);
  }

  /** The dirty list grows by one comma and id per component. */
  lemma DirtyListStep(dirty: seq<ID>, i: nat)
    requires i < |dirty|
    ensures "2" + DirtyList(dirty[..i + 1]) == ("2" + DirtyList(dirty[..i])) + ("," + Itoa(dirty[i]))
  {
    assert dirty[..i + 1][..i] == dirty[..i];
    var a := DirtyList(dirty[..i]);
    assert "2" + (a + "," + Itoa(dirty[i])) == ("2" + a) + ("," + Itoa(dirty[i]));
  }

  /** One dirty component: a comma and its id. */
  method WriteDirtyID(w: Writer, id: ID)
    requires IntsCached(w.ints)
    modifies w.sink
    ensures Took(w.sink, "," + Itoa(id))
  {
    var sink := w.sink;
    ghost var out0, room0 := sink.out, sink.room;
    var _, _ := sink.Write(",");
    ghost var out1, room1 := sink.out, sink.room;
    var _, _ := w.Writev(VInt(id));
    Extend(out0, room0, ",", out1, room1, Itoa(id), sink.out, sink.room);
  }

  /** The dirty-components action: "2", then a comma and the id of each. */
  method WriteDirty(w: Writer, dirty: seq<ID>)
    requires IntsCached(w.ints)
    modifies w.sink
    ensures Took(w.sink, DirtyAction(dirty))
  {
    var sink := w.sink;
    ghost var out0, room0 := sink.out, sink.room;
    assert Itoa(2) == "2";
    var _, _ := w.Writev(VInt(2));
    ghost var text := "2";
    var i := 0;
    while i < |dirty|
      invariant 0 <= i <= |dirty|
      invariant text == "2" + DirtyList(dirty[..i])
      invariant sink.out == out0 + Capped(room0, text) && sink.room == room0 - |Capped(room0, text)|
    {
      ghost var out1, room1 := sink.out, sink.room;
      WriteDirtyID(w, dirty[i]);
      Extend(out0, room0, text, out1, room1, "," + Itoa(dirty[i]), sink.out, sink.room);
      DirtyListStep(dirty, i);
      text := text + ("," + Itoa(dirty[i]));
      i := i + 1;
    }
    assert dirty[..i] == dirty;
  }

  /**
   * handleEvent's response: the action codes and ids written through w,
   * whose write errors are not looked at. The sink takes what fits of the
   * response text.
   */
  method WriteEventResponse(w: Writer, reload: bool, reloadWin: string, dirty: seq<ID>, focused: Option<ID>)
    requires IntsCached(w.ints)
    modifies w.sink
    ensures Took(w.sink, EventResponse(reload, reloadWin, dirty, focused))
  {
    if reload {
      WriteReload(w, reloadWin);
    } else if |dirty| > 0 || focused.Some? {
      WriteActions(w, dirty, focused);
    } else {
      assert Itoa(0) == "0";
      var _, _ := w.Writev(VInt(0));
    }
  }

  /** The dirty and focus actions, separated by ';' when both are there. */
  method WriteActions(w: Writer, dirty: seq<ID>, focused: Option<ID>)
    requires IntsCached(w.ints)
    requires |dirty| > 0 || focused.Some?
    modifies w.sink
    ensures Took(w.sink, EventResponse(false, "", dirty, focused))
  {
    if |dirty| == 0 {
      WriteFocus(w, focused.value);
    } else if focused.None? {
      WriteDirty(w, dirty);
      assert DirtyAction(dirty) + "" == DirtyAction(dirty);
    } else {
      var sink := w.sink;
      ghost var out0, room0 := sink.out, sink.room;
      WriteDirty(w, dirty);
      ghost var out1, room1 := sink.out, sink.room;
      WriteSepFocus(w, focused.value);
      Extend(out0, room0, DirtyAction(dirty), out1, room1, ";" + FocusAction(focused.value), sink.out, sink.room);
    }
  }

  /** The focus action after another action: ";3,<id>". */
  method WriteSepFocus(w: Writer, id: ID)
    requires IntsCached(w.ints)
    modifies w.sink
    ensures Took(w.sink, ";" + FocusAction(id))
  {
    var sink := w.sink;
    ghost var out0, room0 := sink.out, sink.room;
    WriteSep(sink);
    ghost var out1, room1 := sink.out, sink.room;
    WriteFocus(w, id);
    Extend(out0, room0, ";", out1, room1, FocusAction(id), sink.out, sink.room);
  }

  /** The ';' between two actions. */
  method WriteSep(sink: Sink)
    modifies sink
    ensures Took(sink, ";")
  {
    var _, _ := sink.Write(";");
  }
}
