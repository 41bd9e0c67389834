/** The routing decision of the static WSGI server: a health check, the
    files of the `dist` folder, the single-page-application fallback to
    `index.html`, and 404. The file system is a parameter: which paths
    exist, which are regular files, what reading a file gives (nothing when
    the read fails) and what the MIME type guess gives. */
module SimpleServer {
  import opened Common

  datatype Files = Files(
    dist: string,
    exists_: string -> bool,
    isFile: string -> bool,
    read: string -> Option<seq<byte>>,
    guessType: string -> Option<string>)

  datatype Response = Response(status: string, headers: seq<(string, string)>, body: seq<byte>)

  const HealthBody: string := "{\"status\": \"healthy\", \"app\": \"Cardiologie Taakbeheer\"}"

  function HealthResponse(): Response {
    Response("200 OK", [("Content-Type", "application/json")], Bytes(HealthBody))
  }

  function NotFound(): Response {
    Response("404 Not Found", [("Content-Type", "text/plain")], Bytes("Not Found"))
  }

  /** A file's contents with its type and length. */
  function Content(mimeType: string, content: seq<byte>): Response {
    Response("200 OK", [("Content-Type", mimeType), ("Content-Length", NatToString(|content|))], content)
  }

  /** The path the server works with: `PATH_INFO` (by default "/") without
      one leading slash, and `index.html` for the root. */
  function RequestPath(pathInfo: Option<string>): (path: string)
    ensures path != ""
    ensures var raw := if pathInfo.Some? then pathInfo.value else "/";
            raw in {"", "/", "//"} ==> path == "index.html"
    ensures var raw := if pathInfo.Some? then pathInfo.value else "/";
            path == "index.html" || (if StartsWith(raw, "/") then raw == "/" + path else raw == path)
  {
    var raw := if pathInfo.Some? then pathInfo.value else "/";
    var path := if StartsWith(raw, "/") then raw[1..] else raw;
    assert StartsWith(raw, "/") ==> raw == "/" + path;
    assert raw == "//" ==> path == "/";
    if path == "" || path == "/" then "index.html" else path
  }

  /** `os.path.join(folder, path)`: an absolute `path` replaces the folder. */
  function JoinPath(folder: string, path: string): (joined: string)
    ensures !StartsWith(path, "/") ==> joined == folder + "/" + path
    ensures StartsWith(path, "/") ==> joined == path
  {
    if StartsWith(path, "/") then path else folder + "/" + path
  }

  /** `mimetypes.guess_type`, falling back on the extension. */
  function MimeType(guessed: Option<string>, path: string): (t: string)
    ensures guessed.Some? ==> t == guessed.value
    ensures guessed.None? ==> t in {"application/javascript", "text/css", "text/html", "application/octet-stream"}
    ensures guessed.None? && EndsWith(path, ".js") ==> t == "application/javascript"
    ensures guessed.None? && EndsWith(path, ".css") ==> t == "text/css"
    ensures guessed.None? && EndsWith(path, ".html") ==> t == "text/html"
    ensures guessed.None? && t == "application/octet-stream" ==>
              !EndsWith(path, ".js") && !EndsWith(path, ".css") && !EndsWith(path, ".html")
  {
    SuffixesExclusive(path);
    if guessed.Some? then guessed.value
    else if EndsWith(path, ".js") then "application/javascript"
    else if EndsWith(path, ".css") then "text/css"
    else if EndsWith(path, ".html") then "text/html"
    else "application/octet-stream"
  }

  /** No path has two of the three extensions. */
  lemma SuffixesExclusive(path: string)
    ensures !(EndsWith(path, ".js") && EndsWith(path, ".css"))
    ensures !(EndsWith(path, ".js") && EndsWith(path, ".html"))
    ensures !(EndsWith(path, ".css") && EndsWith(path, ".html"))
  {
    var n := |path|;
    assert EndsWith(path, ".js") ==> path[n - 2] == path[n - 3..][1] == 'j';
    assert EndsWith(path, ".css") ==> path[n - 2] == path[n - 4..][2] == 's' && path[n - 1] == path[n - 4..][3] == 's';
    assert EndsWith(path, ".html") ==> path[n - 1] == path[n - 5..][4] == 'l';
  }

  /** The last `/`-separated segment of a path. */
  function LastSegment(path: string): (seg: string)
    ensures '/' !in seg
  {
    var parts := Split(path, '/');
    parts[|parts| - 1]
  }

  /** A route of the single-page application rather than a missing asset:
      not under `assets/`, and no `.` in the last segment. */
  predicate IsAppRoute(path: string) {
    !StartsWith(path, "assets/") && '.' !in LastSegment(path)
  }

  /** A path the server may look up below `dist`: relative, with no `..`
      segment. */
  predicate Confined(path: string) {
    !StartsWith(path, "/") && forall k :: 0 <= k < |Split(path, '/')| ==> Split(path, '/')[k] != ".."
  }

  /** The regular file at `filePath`, if it exists and can be read. */
  function ReadFile(files: Files, filePath: string): Option<seq<byte>> {
    if files.exists_(filePath) && files.isFile(filePath) then files.read(filePath) else None
  }

  /** The fallback: `index.html` of `dist` for an application route, if it
      exists and can be read, else 404. */
  function Fallback(path: string, files: Files): (r: Response)
    ensures r == NotFound() || (IsAppRoute(path) && r.status == "200 OK")
  {
    var indexPath := JoinPath(files.dist, "index.html");
    if IsAppRoute(path) && files.exists_(indexPath) && files.read(indexPath).Some? then
      Content("text/html", files.read(indexPath).value)
    else NotFound()
  }

  /** `application(environ, start_response)` as written: the file path is
      `os.path.join(dist, path)` whatever the path is. */
  function ApplicationAsWritten(pathInfo: Option<string>, files: Files): (r: Response)
    ensures RequestPath(pathInfo) == "health" ==> r == HealthResponse()
    ensures r.status == "200 OK" || r == NotFound()
    ensures forall h :: h in r.headers && h.0 == "Content-Length" ==> h.1 == NatToString(|r.body|)
  {
    var path := RequestPath(pathInfo);
    if path == "health" then HealthResponse()
    else
      var filePath := JoinPath(files.dist, path);
      var content := ReadFile(files, filePath);
      if content.Some? then Content(MimeType(files.guessType(filePath), path), content.value)
      else Fallback(path, files)
  }

  /** The request path `//etc/passwd` makes the server read `/etc/passwd`,
      outside `dist`: two file systems that differ only there answer
      differently. */
  lemma AsWrittenEscapesDist()
    ensures var outside := "/etc/passwd";
            var f1 := Files("/srv/dist", p => p == outside, p => p == outside, p => Some([1]), p => None);
            var f2 := Files("/srv/dist", p => p == outside, p => p == outside, p => Some([2]), p => None);
            !StartsWith(outside, "/srv/dist/") &&
            ApplicationAsWritten(Some("//etc/passwd"), f1) != ApplicationAsWritten(Some("//etc/passwd"), f2)
  {
    var outside := "/etc/passwd";
    var f1 := Files("/srv/dist", p => p == outside, p => p == outside, p => Some([1]), p => None);
    assert "//etc/passwd"[1..] == outside;
    assert RequestPath(Some("//etc/passwd")) == outside;
    assert JoinPath(f1.dist, outside) == outside;
    assert "/srv/dist/"[5] != outside[5];
  }

  /** `application`, reading only confined paths: any other path goes
      straight to the fallback. */
  function Application(pathInfo: Option<string>, files: Files): (r: Response)
    ensures RequestPath(pathInfo) == "health" ==> r == HealthResponse()
    ensures r.status == "200 OK" || r == NotFound()
    ensures forall h :: h in r.headers && h.0 == "Content-Length" ==> h.1 == NatToString(|r.body|)
  {
    var path := RequestPath(pathInfo);
    if path == "health" then HealthResponse()
    else
      var filePath := JoinPath(files.dist, path);
      var content := if Confined(path) then ReadFile(files, filePath) else None;
      if content.Some? then Content(MimeType(files.guessType(filePath), path), content.value)
      else Fallback(path, files)
  }

  /** The two agree on every path the server is meant to serve. */
  lemma ConfinedPathsAsWritten(pathInfo: Option<string>, files: Files)
    requires Confined(RequestPath(pathInfo))
    ensures Application(pathInfo, files) == ApplicationAsWritten(pathInfo, files)
  {
  }

  /** What the file system holds below `dist` at a confined path. */
  predicate SameBelow(f1: Files, f2: Files, path: string) {
    var p := f1.dist + "/" + path;
    f1.exists_(p) == f2.exists_(p) && f1.isFile(p) == f2.isFile(p) &&
    f1.read(p) == f2.read(p) && f1.guessType(p) == f2.guessType(p)
  }

  /** The answer depends only on what lies below `dist`: two file systems
      with the same folder that agree on every confined path give the same
      response. */
  lemma OnlyDistMatters(pathInfo: Option<string>, f1: Files, f2: Files)
    requires f1.dist == f2.dist
    requires forall path :: Confined(path) ==> SameBelow(f1, f2, path)
    ensures Application(pathInfo, f1) == Application(pathInfo, f2)
  {
    var path := RequestPath(pathInfo);
    IndexConfined();
    assert SameBelow(f1, f2, "index.html");
    if Confined(path) {
      assert SameBelow(f1, f2, path);
    }
  }

  lemma IndexConfined()
    ensures Confined("index.html")
  {
    SplitNoSlash("index.html");
  }

  lemma SplitNoSlash(s: string)
    requires '/' !in s
    ensures Split(s, '/') == [s]
  {
    SplitPrefix(s, "", '/');
    assert s + "" == s;
  }

  // ---------------------------------------------------------------------------
  // the routing rules

  /** `health` is answered before any file is looked at. */
  lemma HealthFirst(pathInfo: Option<string>, f1: Files, f2: Files)
    requires RequestPath(pathInfo) == "health"
    ensures Application(pathInfo, f1) == Application(pathInfo, f2) == HealthResponse()
  {
  }

  /** A readable regular file is served with its length and its type. */
  lemma ServesFile(pathInfo: Option<string>, files: Files)
    requires var path := RequestPath(pathInfo);
             path != "health" && ReadFile(files, JoinPath(files.dist, path)).Some?
    ensures var path := RequestPath(pathInfo);
            var filePath := JoinPath(files.dist, path);
            ApplicationAsWritten(pathInfo, files) ==
              Content(MimeType(files.guessType(filePath), path), files.read(filePath).value)
  {
  }

  /** The corrected server serves such a file when its path is confined,
      and then from below `dist`. */
  lemma ServesConfinedFile(pathInfo: Option<string>, files: Files)
    requires var path := RequestPath(pathInfo);
             path != "health" && Confined(path) && ReadFile(files, JoinPath(files.dist, path)).Some?
    ensures var path := RequestPath(pathInfo);
            var filePath := files.dist + "/" + path;
            Application(pathInfo, files) ==
              Content(MimeType(files.guessType(filePath), path), files.read(filePath).value)
  {
  }

  /** Without such a file, an application route gets `index.html` and
      anything else 404. */
  lemma FallsBack(pathInfo: Option<string>, files: Files)
    requires var path := RequestPath(pathInfo);
             path != "health" && ReadFile(files, JoinPath(files.dist, path)).None?
    ensures var path := RequestPath(pathInfo);
            var indexPath := files.dist + "/index.html";
            var r := ApplicationAsWritten(pathInfo, files);
            (IsAppRoute(path) && files.exists_(indexPath) && files.read(indexPath).Some? ==>
               r == Content("text/html", files.read(indexPath).value)) &&
            (!(IsAppRoute(path) && files.exists_(indexPath) && files.read(indexPath).Some?) ==>
               r == NotFound())
  {
    var path := RequestPath(pathInfo);
    assert ApplicationAsWritten(pathInfo, files) == Fallback(path, files);
    FallbackCases(path, files);
  }

  /** The corrected server sends every path that is not confined to the
      fallback, whatever the file system holds there. */
  lemma UnconfinedFallsBack(pathInfo: Option<string>, files: Files)
    requires var path := RequestPath(pathInfo);
             path != "health" && !Confined(path)
    ensures var path := RequestPath(pathInfo);
            var indexPath := files.dist + "/index.html";
            var r := Application(pathInfo, files);
            (IsAppRoute(path) && files.exists_(indexPath) && files.read(indexPath).Some? ==>
               r == Content("text/html", files.read(indexPath).value)) &&
            (!(IsAppRoute(path) && files.exists_(indexPath) && files.read(indexPath).Some?) ==>
               r == NotFound())
  {
    var path := RequestPath(pathInfo);
    assert Application(pathInfo, files) == Fallback(path, files);
    FallbackCases(path, files);
  }

  lemma FallbackCases(path: string, files: Files)
    ensures var indexPath := files.dist + "/index.html";
            var r := Fallback(path, files);
            (IsAppRoute(path) && files.exists_(indexPath) && files.read(indexPath).Some? ==>
               r == Content("text/html", files.read(indexPath).value)) &&
            (!(IsAppRoute(path) && files.exists_(indexPath) && files.read(indexPath).Some?) ==>
               r == NotFound())
  {
    assert !StartsWith("index.html", "/") by { assert "index.html"[0] != "/"[0]; }
    assert files.dist + "/" + "index.html" == files.dist + "/index.html";
  }

  /** Assets and paths with an extension are never answered with the
      application page: without their file they get 404. */
  lemma MissingAssetIsNotFound(pathInfo: Option<string>, files: Files)
    requires var path := RequestPath(pathInfo);
             path != "health" && !IsAppRoute(path) && ReadFile(files, JoinPath(files.dist, path)).None?
    ensures ApplicationAsWritten(pathInfo, files) == NotFound()
  {
  }
}
