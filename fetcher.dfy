/** Input acquisition: the session cookie from `.env`, and the download of
    a day's puzzle input into its cache file. The HTTP transfer itself is
    an oracle: a `Reply` says whether the client initialised, whether the
    transfer completed, the status code and the body. */
module Fetcher {
  import opened Optional
  import opened Utils
  import opened Decimal
  import opened Files

  const EnvPath: string := ".env"
  const SessionKey: string := "AOC_SESSION="
  const Placeholder: string := "your_session_cookie_here"

  // ---------------------------------------------------------------- session cookie

  /** `line.find(prefix) == 0`. */
  predicate StartsWith(line: string, prefix: string) {
    |prefix| <= |line| && line[..|prefix|] == prefix
  }

  /** A line of `.env` that sets the session: once trimmed, it starts
      with AOC_SESSION=. */
  predicate IsSessionLine(line: string) {
    StartsWith(Trim(line), SessionKey)
  }

  /** The trimmed text behind AOC_SESSION= on a session line. */
  function SessionValue(line: string): (r: string)
    requires IsSessionLine(line)
  {
    Trim(Trim(line)[|SessionKey|..])
  }

  datatype Assignment = Unassigned | Assigned(value: string)

  /** What the first session line among `lines` assigns. */
  function FirstAssignment(lines: seq<string>): (r: Assignment) {
    var k := FirstIndex(lines, IsSessionLine);
    if k == |lines| then Unassigned
    else
      FirstIndexSpec(lines, IsSessionLine);
      Assigned(SessionValue(lines[k]))
  }

  /** Why the cookie is what it is (the warnings on the error stream). */
  datatype CookieDiag = EnvMissing | NotConfigured | KeyNotFound | Loaded

  datatype CookieResult = CookieResult(cookie: string, diag: CookieDiag)

  /** The cookie loadSessionCookie returns for the `.env` file `env`
      (None when it cannot be opened). */
  function LoadOutcome(env: Option<string>): (r: CookieResult) {
    match env
    case None => CookieResult("", EnvMissing)
    case Some(contents) =>
      match FirstAssignment(Tokens(contents, '\n'))
      case Unassigned => CookieResult("", KeyNotFound)
      case Assigned(v) =>
        if v == [] || v == Placeholder then CookieResult("", NotConfigured) else CookieResult(v, Loaded)
  }

  /** The cookie in the current file system. */
  function CookieIn(files: map<string, string>): (r: string) {
    LoadOutcome(Lookup(files, EnvPath)).cookie
  }

  /** Blank lines and comment lines are never session lines. */
  lemma SkippedLineIsNoSessionLine(line: string)
    requires var t := Trim(line); t == [] || t[0] == '#'
    ensures !IsSessionLine(line)
  {
    var t := Trim(line);
    if t != [] {
      assert SessionKey[0] == 'A';
    }
  }

  /** A cookie that is not empty is trimmed and is not the placeholder; it
      is empty exactly when a warning was given. */
  lemma CookieWellFormed(env: Option<string>)
    ensures var r := LoadOutcome(env);
      (r.cookie == "" || (r.cookie != Placeholder && NoEdgeSpace(r.cookie)))
      && (r.cookie != "" <==> r.diag == Loaded)
  {
    if env.Some? {
      AssignedIsTrimmed(Tokens(env.value, '\n'));
    }
  }

  /** An assigned value has no whitespace at its edges. */
  lemma AssignedIsTrimmed(lines: seq<string>)
    ensures FirstAssignment(lines).Assigned? ==> NoEdgeSpace(FirstAssignment(lines).value)
  {
  }

  /** The first session line decides: what comes after it is never looked at. */
  lemma FirstSessionLineDecides(lines: seq<string>, i: nat)
    requires i < |lines| && IsSessionLine(lines[i])
    requires forall j :: 0 <= j < i ==> !IsSessionLine(lines[j])
    ensures FirstAssignment(lines) == Assigned(SessionValue(lines[i]))
  {
    FirstIndexAt(lines, IsSessionLine, i);
  }

  /** Without any session line the result is Unassigned, and only then. */
  lemma NoSessionLine(lines: seq<string>)
    ensures FirstAssignment(lines) == Unassigned <==> forall i :: 0 <= i < |lines| ==> !IsSessionLine(lines[i])
  {
    FirstIndexSpec(lines, IsSessionLine);
  }

  /** A line that is not a session line passes the decision on. */
  lemma {:induction false} FirstAssignmentSkip(lines: seq<string>)
    requires lines != [] && !IsSessionLine(lines[0])
    ensures FirstAssignment(lines) == FirstAssignment(lines[1..])
  {
    var k := FirstIndex(lines[1..], IsSessionLine);
    assert FirstIndex(lines, IsSessionLine) == 1 + k;
    if k < |lines| - 1 {
      assert lines[1 + k] == lines[1..][k];
    }
  }

  /** fetcher::loadSessionCookie: a getline loop over `.env`; each line is
      trimmed, blank lines and `#` comments are skipped, and the first line
      that starts with AOC_SESSION= decides, its value again trimmed and
      refused when empty or still the placeholder. */
  method LoadSessionCookie(fs: FileSystem) returns (cookie: string, diag: CookieDiag)
    ensures CookieResult(cookie, diag) == LoadOutcome(fs.Read(EnvPath))
  {
    var env := fs.Read(EnvPath);
    if env.None? {
      return "", EnvMissing;
    }
    var lines := Split(env.value, '\n');
    var rest := lines;
    while rest != []
      invariant FirstAssignment(rest) == FirstAssignment(lines)
      decreases |rest|
    {
      var line := Trim(rest[0]);
      if line == [] || line[0] == '#' {
        SkippedLineIsNoSessionLine(rest[0]);
      } else if StartsWith(line, SessionKey) {
        assert FirstIndex(rest, IsSessionLine) == 0;
        var value := Trim(line[12..]);
        if value == [] || value == Placeholder {
          return "", NotConfigured;
        }
        return value, Loaded;
      }
      FirstAssignmentSkip(rest);
      rest := rest[1..];
    }
    return "", KeyNotFound;
  }

  // ---------------------------------------------------------------- download

  /** What the HTTP client reports: curl_easy_init succeeded, the transfer
      completed (CURLE_OK), the response code and the received body. */
  datatype Reply = Reply(initOk: bool, transportOk: bool, httpCode: int, body: string)

  /** The request sent: its URL and its Cookie header. */
  datatype Request = Request(url: string, cookie: string)

  /** The outcome fetchInput reports on its output streams. */
  datatype FetchDiag =
    | AlreadyCached
    | NoSessionCookie
    | InitFailed
    | TransportFailed
    | NotYetAvailable     // HTTP 404
    | BadSessionOrServer  // HTTP 400 or 500
    | HttpFailed          // any other code but 200
    | OpenFailed
    | Saved

  function InputUrl(year: int, day: int): (r: string) {
    "https://adventofcode.com/" + IntToString(year) + "/day/" + IntToString(day) + "/input"
  }

  /** A download that ends with the body written to `path`. */
  predicate Downloads(files: map<string, string>, path: string, reply: Reply, canOpen: bool) {
    && path !in files
    && CookieIn(files) != ""
    && reply.initOk && reply.transportOk && reply.httpCode == 200
    && canOpen
  }

  /** The file system after fetchInput. */
  function FetchEffect(files: map<string, string>, path: string, reply: Reply, canOpen: bool): (r: map<string, string>) {
    if Downloads(files, path, reply, canOpen) then files[path := reply.body] else files
  }

  /** Fetching never changes or removes a file that exists, and can only
      add the file at `path`, holding the reply body verbatim. */
  lemma FetchKeepsFiles(files: map<string, string>, path: string, reply: Reply, canOpen: bool)
    ensures var after := FetchEffect(files, path, reply, canOpen);
      (forall p :: p in files ==> p in after && after[p] == files[p])
      && (forall p :: p in after && p !in files ==> p == path)
      && (path in after && path !in files ==> after[path] == reply.body)
  {
  }

  /** The URL as a fixed text, the year, and a tail that starts with '/'. */
  lemma InputUrlShape(year: int, day: int)
    ensures InputUrl(year, day)
      == "https://adventofcode.com/" + (IntToString(year) + ("/day/" + (IntToString(day) + "/input")))
  {
    var a, b := IntToString(year), IntToString(day);
    AppendAssoc("https://adventofcode.com/" + a + "/day/", b, "/input");
    AppendAssoc("https://adventofcode.com/" + a, "/day/", b + "/input");
    AppendAssoc("https://adventofcode.com/", a, "/day/" + (b + "/input"));
  }

  /** `a + m + rest` with `a` the text of an integer and `m` starting
      with '/' determines the integer and the rest. */
  lemma NumberBeforeSlash(i1: int, r1: string, i2: int, r2: string)
    requires r1 != [] && r1[0] == '/' && r2 != [] && r2[0] == '/'
    requires IntToString(i1) + r1 == IntToString(i2) + r2
    ensures i1 == i2 && r1 == r2
  {
    IntToStringAvoids(i1, '/');
    IntToStringAvoids(i2, '/');
    SplitAtMarker(IntToString(i1), r1, IntToString(i2), r2, '/');
    IntToStringInjective(i1, i2);
  }

  /** Different days are fetched from different URLs. */
  lemma InputUrlInjective(y1: int, d1: int, y2: int, d2: int)
    requires InputUrl(y1, d1) == InputUrl(y2, d2)
    ensures y1 == y2 && d1 == d2
  {
    InputUrlShape(y1, d1);
    InputUrlShape(y2, d2);
    var t1 := "/day/" + (IntToString(d1) + "/input");
    var t2 := "/day/" + (IntToString(d2) + "/input");
    AppendCancel("https://adventofcode.com/", IntToString(y1) + t1, IntToString(y2) + t2);
    NumberBeforeSlash(y1, t1, y2, t2);
    AppendCancel("/day/", IntToString(d1) + "/input", IntToString(d2) + "/input");
    NumberBeforeSlash(d1, "/input", d2, "/input");
  }

  /** fetcher::fetchInput: an existing file wins; otherwise the session
      cookie is loaded, the request for the day's input is sent, and on
      HTTP 200 the body is written verbatim to `outputPath`. */
  method FetchInput(fs: FileSystem, year: int, day: int, outputPath: string, reply: Reply, canOpen: bool)
    returns (ok: bool, request: Option<Request>, diag: FetchDiag)
    modifies fs
    ensures var cached, cookie := outputPath in old(fs.files), CookieIn(old(fs.files));
      && (cached ==> ok && request == None && diag == AlreadyCached)
      && (!cached && cookie == "" ==> !ok && request == None && diag == NoSessionCookie)
      && (!cached && cookie != "" && !reply.initOk ==> !ok && request == None && diag == InitFailed)
      && (!cached && cookie != "" && reply.initOk ==>
            request == Some(Request(InputUrl(year, day), "session=" + cookie)))
      && (!cached && cookie != "" && reply.initOk && !reply.transportOk ==> !ok && diag == TransportFailed)
      && (!cached && cookie != "" && reply.initOk && reply.transportOk && reply.httpCode != 200 ==>
            !ok
            && diag == (if reply.httpCode == 404 then NotYetAvailable
                        else if reply.httpCode == 400 || reply.httpCode == 500 then BadSessionOrServer
                        else HttpFailed))
      && (!cached && cookie != "" && reply.initOk && reply.transportOk && reply.httpCode == 200 ==>
            ok == canOpen && diag == (if canOpen then Saved else OpenFailed))
    ensures ok <==> outputPath in old(fs.files) || Downloads(old(fs.files), outputPath, reply, canOpen)
    ensures fs.files == FetchEffect(old(fs.files), outputPath, reply, canOpen)
  {
    if outputPath in fs.files {
      return true, None, AlreadyCached;
    }
    var cookie, _ := LoadSessionCookie(fs);
    if cookie == [] {
      return false, None, NoSessionCookie;
    }
    if !reply.initOk {
      return false, None, InitFailed;
    }
    var url := "https://adventofcode.com/" + IntToString(year) + "/day/" + IntToString(day) + "/input";
    request := Some(Request(url, "session=" + cookie));
    var responseData := reply.body;
    if !reply.transportOk {
      return false, request, TransportFailed;
    }
    if reply.httpCode != 200 {
      if reply.httpCode == 404 {
        diag := NotYetAvailable;
      } else if reply.httpCode == 400 || reply.httpCode == 500 {
        diag := BadSessionOrServer;
      } else {
        diag := HttpFailed;
      }
      return false, request, diag;
    }
    var isOpen := fs.Write(outputPath, responseData, canOpen);
    if !isOpen {
      return false, request, OpenFailed;
    }
    return true, request, Saved;
  }
}
