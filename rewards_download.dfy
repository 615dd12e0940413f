/**
  The download of a rewards tree file (DownloadRewardsFile in
  shared/services/rewards/utils.go): the primary and the secondary IPFS
  gateway, then the GitHub copy, are tried in that order, and the first
  download that succeeds is written to the tree file path.

  HTTP, the decompressor, the file write, the path expansion, `filepath.Base`
  and the URL templates are inputs: `fetch` gives what a GET of a URL returned,
  `decompress` is the decompressor as a partial function, `writeFile` gives the
  error of writing bytes to a path, if any, and `urlOf` fills a source's URL
  template with its two arguments.
*/
module RewardsDownload {
  import opened Wrappers
  import opened GoFmt

  /** The three places a rewards file is downloaded from, in the order they are tried. */
  datatype Source = Primary | Secondary | Github

  /** The outcome of a GET: a transport error, or a status with the body as read. */
  datatype Fetch =
    | GetFailed(cause: string)
    | Responded(statusCode: int, status: string, body: Result<seq<bv8>, string>)

  /** One line of the error log, each naming the URL it is about. */
  datatype FailureLine =
    | TransportFailed(url: string, cause: string)
    | BadStatus(url: string, status: string)
    | ReadFailed(url: string, cause: string)
    | DecompressFailed(url: string, cause: string)

  datatype DownloadResult =
    | Saved(url: string, path: string, bytes: seq<bv8>)
    | PathExpandError(cause: string)                       // "error expanding rewards tree path: %w"
    | SaveError(interval: nat, path: string, cause: string) // "error saving interval %d file to %s: %w"
    | AllSourcesFailed(message: string)

  const StatusOK := 200

  /** `strings.HasSuffix`. */
  predicate HasSuffix(s: string, suffix: string)
  {
    |suffix| <= |s| && s[|s| - |suffix|..] == suffix
  }

  /** The text the log gets for a failure, without its line break. */
  function Text(l: FailureLine): string
  {
    match l
    case TransportFailed(url, cause) => "Downloading " + url + " failed (" + cause + ")"
    case BadStatus(url, status) => "Downloading " + url + " failed with status " + status
    case ReadFailed(url, cause) => "Error reading response bytes from " + url + ": " + cause
    case DecompressFailed(url, cause) => "Error decompressing " + url + ": " + cause
  }

  /** The line the log gets for a failure. */
  function Line(l: FailureLine): string
  {
    Text(l) + "\n"
  }

  /**
    One source: the bytes to write when the GET succeeded with status 200, its
    body was read and, for a URL ending in the IPFS extension, decompressed;
    otherwise the failure the log records for it.
  */
  function Attempt(url: string, ext: string, fetch: string -> Fetch,
                   decompress: seq<bv8> -> Result<seq<bv8>, string>): Result<seq<bv8>, FailureLine>
  {
    match fetch(url)
    case GetFailed(cause) => Failure(TransportFailed(url, cause))
    case Responded(code, status, body) =>
      if code != StatusOK then Failure(BadStatus(url, status))
      else if body.Failure? then Failure(ReadFailed(url, body.error))
      else if !HasSuffix(url, ext) then Success(body.value)
      else match decompress(body.value)
        case Failure(cause) => Failure(DecompressFailed(url, cause))
        case Success(bytes) => Success(bytes)
  }

  /**
    What one source's outcome `r` must be: it succeeds exactly when the GET
    returned status 200, the body was read and, for a URL ending in the IPFS
    extension, decompressed; its bytes are the body, decompressed only for such
    URLs; a failure names the URL, and each failing step gives its own line,
    carrying that step's cause.
  */
  predicate SourceOutcome(url: string, ext: string, fetch: string -> Fetch,
                          decompress: seq<bv8> -> Result<seq<bv8>, string>, r: Result<seq<bv8>, FailureLine>)
  {
    var resp := fetch(url);
    && (r.Success? <==>
          && resp.Responded? && resp.statusCode == StatusOK && resp.body.Success?
          && (HasSuffix(url, ext) ==> decompress(resp.body.value).Success?))
    && (r.Success? && !HasSuffix(url, ext) ==> r.value == resp.body.value)
    && (r.Success? && HasSuffix(url, ext) ==> r.value == decompress(resp.body.value).value)
    && (r.Failure? ==> r.error.url == url)
    && (resp.GetFailed? ==> r == Failure(TransportFailed(url, resp.cause)))
    && (resp.Responded? && resp.statusCode != StatusOK ==> r == Failure(BadStatus(url, resp.status)))
    && (resp.Responded? && resp.statusCode == StatusOK && resp.body.Failure? ==>
          r == Failure(ReadFailed(url, resp.body.error)))
    && (resp.Responded? && resp.statusCode == StatusOK && resp.body.Success? && HasSuffix(url, ext) &&
        decompress(resp.body.value).Failure? ==>
          r == Failure(DecompressFailed(url, decompress(resp.body.value).error)))
  }

  /** `Attempt` gives each source the outcome the source promises for it. */
  lemma AttemptSpec(url: string, ext: string, fetch: string -> Fetch,
                    decompress: seq<bv8> -> Result<seq<bv8>, string>)
    ensures SourceOutcome(url, ext, fetch, decompress, Attempt(url, ext, fetch, decompress))
  {
  }

  /** The index of the first URL at or after `from` whose download succeeds, or `|urls|` when none does. */
  function FirstDownloadFrom(urls: seq<string>, from: nat, ext: string, fetch: string -> Fetch,
                             decompress: seq<bv8> -> Result<seq<bv8>, string>): (k: nat)
    requires from <= |urls|
    ensures from <= k <= |urls|
    ensures forall j :: from <= j < k ==> Attempt(urls[j], ext, fetch, decompress).Failure?
    ensures k < |urls| ==> Attempt(urls[k], ext, fetch, decompress).Success?
    decreases |urls| - from
  {
    if from == |urls| then from
    else if Attempt(urls[from], ext, fetch, decompress).Success? then from
    else FirstDownloadFrom(urls, from + 1, ext, fetch, decompress)
  }

  /** The index of the first URL whose download succeeds, or `|urls|` when none does. */
  function FirstDownload(urls: seq<string>, ext: string, fetch: string -> Fetch,
                         decompress: seq<bv8> -> Result<seq<bv8>, string>): (k: nat)
    ensures k <= |urls|
    ensures forall j :: 0 <= j < k ==> Attempt(urls[j], ext, fetch, decompress).Failure?
    ensures k < |urls| ==> Attempt(urls[k], ext, fetch, decompress).Success?
  {
    FirstDownloadFrom(urls, 0, ext, fetch, decompress)
  }

  /** The number of newline characters in `s`. */
  function Newlines(s: string): nat
  {
    if s == [] then 0 else Newlines(s[..|s| - 1]) + (if s[|s| - 1] == '\n' then 1 else 0)
  }

  lemma {:induction false} NoNewlines(s: string)
    requires '\n' !in s
    ensures Newlines(s) == 0
  {
    if s != [] {
      NoNewlines(s[..|s| - 1]);
    }
  }

  /** No field of the failure holds the character `c`. */
  predicate Avoids(l: FailureLine, c: char)
  {
    c !in l.url && match l
      case TransportFailed(_, cause) => c !in cause
      case BadStatus(_, status) => c !in status
      case ReadFailed(_, cause) => c !in cause
      case DecompressFailed(_, cause) => c !in cause
  }

  /**
    The fixed parts of the log's messages hold neither a line break nor a `%`,
    so the text of a failure whose fields avoid one of these avoids it too.
  */
  lemma TextAvoids(l: FailureLine, c: char)
    requires c == '\n' || c == '%'
    requires Avoids(l, c)
    ensures c !in Text(l)
  {
    FixedTextAvoids(c);
  }

  /** No fixed part of the log's messages holds a line break or a `%`. */
  lemma FixedTextAvoids(c: char)
    requires c == '\n' || c == '%'
    ensures c !in "Downloading " && c !in " failed (" && c !in ")" && c !in " failed with status "
    ensures c !in "Error reading response bytes from " && c !in ": " && c !in "Error decompressing "
  {
    if c == '\n' {
      HeadsAvoid('\n');
      TailsAvoid('\n');
    } else {
      HeadsAvoid('%');
      TailsAvoid('%');
    }
  }

  lemma HeadsAvoid(c: char)
    requires c == '\n' || c == '%'
    ensures c !in "Downloading " && c !in "Error reading response bytes from " && c !in "Error decompressing "
  {
  }

  lemma TailsAvoid(c: char)
    requires c == '\n' || c == '%'
    ensures c !in " failed (" && c !in ")" && c !in " failed with status " && c !in ": "
  {
  }

  /** The text of a failure whose fields hold no newline is exactly one line. */
  lemma LineIsOneLine(l: FailureLine)
    requires Avoids(l, '\n')
    ensures Newlines(Line(l)) == 1 && Line(l)[|Line(l)| - 1] == '\n'
  {
    TextAvoids(l, '\n');
    NoNewlines(Text(l));
    assert Line(l)[..|Line(l)| - 1] == Text(l);
  }

  /**
    The text of the error log: the line of each failure, one after the other.
    The log holds the failures in the order they were written and this is
    its `strings.Builder.String`.
  */
  function Render(failures: seq<FailureLine>): string
  {
    if failures == [] then "" else Render(failures[..|failures| - 1]) + Line(failures[|failures| - 1])
  }

  /** The failures written to the log after trying the first `i` URLs, in order. */
  function Failures(urls: seq<string>, i: nat, ext: string, fetch: string -> Fetch,
                    decompress: seq<bv8> -> Result<seq<bv8>, string>): seq<FailureLine>
    requires i <= |urls|
  {
    if i == 0 then []
    else
      Failures(urls, i - 1, ext, fetch, decompress) +
      match Attempt(urls[i - 1], ext, fetch, decompress)
      case Failure(l) => [l]
      case Success(_) => []
  }

  /** Before the first success, a failing URL moves on and a succeeding one is the first. */
  lemma FirstDownloadStep(urls: seq<string>, i: nat, ext: string, fetch: string -> Fetch,
                          decompress: seq<bv8> -> Result<seq<bv8>, string>)
    requires i < |urls| && i <= FirstDownload(urls, ext, fetch, decompress)
    ensures Attempt(urls[i], ext, fetch, decompress).Failure? ==> i < FirstDownload(urls, ext, fetch, decompress)
    ensures Attempt(urls[i], ext, fetch, decompress).Success? ==> i == FirstDownload(urls, ext, fetch, decompress)
  {
  }

  /** The three URLs in the order they are tried: the two gateways by CID, then GitHub by network. */
  function SourceUrls(urlOf: (Source, string, string) -> string, cid: string, network: string,
                      filename: string, ext: string): seq<string>
  {
    [urlOf(Primary, cid, filename + ext), urlOf(Secondary, cid, filename + ext), urlOf(Github, network, filename)]
  }

  /**
    The outcome DownloadRewardsFile has, given the expanded tree path: the
    bytes of the first source that succeeds are written, and an error writing
    them is returned as it is; when no source succeeds, the error is the log
    passed to `fmt.Errorf` as its format.
  */
  function Outcome(interval: nat, path: string, urls: seq<string>, ext: string, fetch: string -> Fetch,
                   decompress: seq<bv8> -> Result<seq<bv8>, string>,
                   writeFile: (string, seq<bv8>) -> Option<string>): DownloadResult
  {
    var k := FirstDownload(urls, ext, fetch, decompress);
    if k == |urls| then AllSourcesFailed(Errorf(Render(Failures(urls, |urls|, ext, fetch, decompress))))
    else
      var bytes := Attempt(urls[k], ext, fetch, decompress).value;
      match writeFile(path, bytes)
      case Some(cause) => SaveError(interval, path, cause)
      case None => Saved(urls[k], path, bytes)
  }

  /**
    The body of the download loop for one URL, up to the write: the GET, the
    status check, reading the body and, for a URL ending in the IPFS extension,
    decompressing it. A failure is the line the log gets for it.
  */
  method Download(url: string, ext: string, fetch: string -> Fetch,
                  decompress: seq<bv8> -> Result<seq<bv8>, string>)
    returns (r: Result<seq<bv8>, FailureLine>)
    ensures SourceOutcome(url, ext, fetch, decompress, r)
    ensures r == Attempt(url, ext, fetch, decompress)
  {
    var resp := fetch(url);
    if resp.GetFailed? {
      return Failure(TransportFailed(url, resp.cause));
    }
    if resp.statusCode != StatusOK {
      return Failure(BadStatus(url, resp.status));
    }
    if resp.body.Failure? {
      return Failure(ReadFailed(url, resp.body.error));
    }
    var writeBytes := resp.body.value;
    if HasSuffix(url, ext) {
      var decompressed := decompress(writeBytes);
      if decompressed.Failure? {
        return Failure(DecompressFailed(url, decompressed.error));
      }
      writeBytes := decompressed.value;
    }
    return Success(writeBytes);
  }

  /** At the first source that succeeds, the outcome is the write of its bytes. */
  lemma OutcomeAtFirstDownload(interval: nat, path: string, urls: seq<string>, ext: string, fetch: string -> Fetch,
                               decompress: seq<bv8> -> Result<seq<bv8>, string>,
                               writeFile: (string, seq<bv8>) -> Option<string>, i: nat, bytes: seq<bv8>)
    requires i < |urls| && i <= FirstDownload(urls, ext, fetch, decompress)
    requires Attempt(urls[i], ext, fetch, decompress) == Success(bytes)
    ensures i == FirstDownload(urls, ext, fetch, decompress)
    ensures Outcome(interval, path, urls, ext, fetch, decompress, writeFile) ==
            if writeFile(path, bytes).Some? then SaveError(interval, path, writeFile(path, bytes).value)
            else Saved(urls[i], path, bytes)
  {
  }

  /** When no source succeeds, the outcome is the error `fmt.Errorf` makes of the log of all failures. */
  lemma OutcomeAllFailed(interval: nat, path: string, urls: seq<string>, ext: string, fetch: string -> Fetch,
                         decompress: seq<bv8> -> Result<seq<bv8>, string>,
                         writeFile: (string, seq<bv8>) -> Option<string>)
    requires |urls| <= FirstDownload(urls, ext, fetch, decompress)
    ensures Outcome(interval, path, urls, ext, fetch, decompress, writeFile) ==
            AllSourcesFailed(Errorf(Render(Failures(urls, |urls|, ext, fetch, decompress))))
  {
  }

  /**
    The download loop: tries `urls` in order and writes the bytes of the first
    that succeeds to `path`, returning at once, with the write's error if it
    fails; when none succeeds, the error is what `fmt.Errorf` makes of the log
    of failures, used as a format. `tried` lists
    the URLs fetched, in order.
  */
  method TrySources(interval: nat, path: string, urls: seq<string>, ext: string, fetch: string -> Fetch,
                    decompress: seq<bv8> -> Result<seq<bv8>, string>,
                    writeFile: (string, seq<bv8>) -> Option<string>)
    returns (r: DownloadResult, tried: seq<string>)
    ensures var k := FirstDownload(urls, ext, fetch, decompress);
            && (k == |urls| ==> r == AllSourcesFailed(Errorf(Render(Failures(urls, |urls|, ext, fetch, decompress)))) && tried == urls)
            && (k < |urls| ==>
                  var bytes := Attempt(urls[k], ext, fetch, decompress).value;
                  && tried == urls[..k + 1]
                  && r == if writeFile(path, bytes).Some? then SaveError(interval, path, writeFile(path, bytes).value)
                          else Saved(urls[k], path, bytes))
  {
    ghost var k := FirstDownload(urls, ext, fetch, decompress);
    var errBuilder: seq<FailureLine> := [];
    tried := [];
    for i := 0 to |urls|
      invariant i <= k
      invariant tried == urls[..i]
      invariant errBuilder == Failures(urls, i, ext, fetch, decompress)
    {
      var url := urls[i];
      tried := tried + [url];
      assert urls[..i + 1] == urls[..i] + [url];
      FirstDownloadStep(urls, i, ext, fetch, decompress);
      var attempt := Download(url, ext, fetch, decompress);
      if attempt.Failure? {
        errBuilder := errBuilder + [attempt.error];
        continue;
      }
      var writeBytes := attempt.value;
      var err := writeFile(path, writeBytes);
      if err.Some? {
        return SaveError(interval, path, err.value), tried;
      }
      return Saved(url, path, writeBytes), tried;
    }
    assert urls[..|urls|] == urls;
    r := AllSourcesFailed(Errorf(Render(errBuilder)));
  }

  /**
    DownloadRewardsFile. `treePath` is the outcome of expanding the configured
    tree file path and `baseName` is `filepath.Base`. `tried` lists the URLs
    fetched, in order.
  */
  method DownloadRewardsFile(interval: nat, treePath: Result<string, string>, cid: string, network: string,
                             ext: string, baseName: string -> string,
                             urlOf: (Source, string, string) -> string, fetch: string -> Fetch,
                             decompress: seq<bv8> -> Result<seq<bv8>, string>,
                             writeFile: (string, seq<bv8>) -> Option<string>)
    returns (r: DownloadResult, tried: seq<string>)
    ensures treePath.Failure? ==> r == PathExpandError(treePath.error) && tried == []
    ensures treePath.Success? ==>
              var path := treePath.value;
              var urls := SourceUrls(urlOf, cid, network, baseName(path), ext);
              var k := FirstDownload(urls, ext, fetch, decompress);
              && r == Outcome(interval, path, urls, ext, fetch, decompress, writeFile)
              && tried == urls[..if k < |urls| then k + 1 else |urls|]
  {
    if treePath.Failure? {
      return PathExpandError(treePath.error), [];
    }
    var rewardsTreePath := treePath.value;
    var rewardsTreeFilename := baseName(rewardsTreePath);
    var urls := SourceUrls(urlOf, cid, network, rewardsTreeFilename, ext);
    r, tried := TrySources(interval, rewardsTreePath, urls, ext, fetch, decompress, writeFile);
    var k := FirstDownload(urls, ext, fetch, decompress);
    if k < |urls| {
      OutcomeAtFirstDownload(interval, rewardsTreePath, urls, ext, fetch, decompress, writeFile, k,
                             Attempt(urls[k], ext, fetch, decompress).value);
    } else {
      OutcomeAllFailed(interval, rewardsTreePath, urls, ext, fetch, decompress, writeFile);
    }
  }

  /**
    The download fails with the log exactly when every source fails; a saved
    file holds the bytes of a source that succeeded, and it is the first such.
  */
  lemma DownloadTriesInOrder(interval: nat, path: string, urls: seq<string>, ext: string, fetch: string -> Fetch,
                             decompress: seq<bv8> -> Result<seq<bv8>, string>,
                             writeFile: (string, seq<bv8>) -> Option<string>)
    ensures var r := Outcome(interval, path, urls, ext, fetch, decompress, writeFile);
            && (r.AllSourcesFailed? <==> forall j :: 0 <= j < |urls| ==> Attempt(urls[j], ext, fetch, decompress).Failure?)
            && (r.Saved? ==> exists j :: 0 <= j < |urls| && r.url == urls[j] && r.path == path &&
                               Attempt(urls[j], ext, fetch, decompress) == Success(r.bytes) &&
                               forall i :: 0 <= i < j ==> Attempt(urls[i], ext, fetch, decompress).Failure?)
  {
    var k := FirstDownload(urls, ext, fetch, decompress);
    if k < |urls| {
      assert !(forall j :: 0 <= j < |urls| ==> Attempt(urls[j], ext, fetch, decompress).Failure?) by {
        assert Attempt(urls[k], ext, fetch, decompress).Success?;
      }
    }
  }

  /**
    When the primary, the secondary and the GitHub source all fail, the error
    is what `fmt.Errorf` makes of their three failure lines in that order, each
    naming its URL; when no field of a failure holds a `%`, that is the three
    lines themselves.
  */
  lemma AllFailedMessageInOrder(interval: nat, path: string, urlOf: (Source, string, string) -> string,
                                cid: string, network: string, filename: string, ext: string,
                                fetch: string -> Fetch, decompress: seq<bv8> -> Result<seq<bv8>, string>,
                                writeFile: (string, seq<bv8>) -> Option<string>)
    requires var urls := SourceUrls(urlOf, cid, network, filename, ext);
             forall j :: 0 <= j < 3 ==> Attempt(urls[j], ext, fetch, decompress).Failure?
    ensures var urls := SourceUrls(urlOf, cid, network, filename, ext);
            var f0 := Attempt(urls[0], ext, fetch, decompress).error;
            var f1 := Attempt(urls[1], ext, fetch, decompress).error;
            var f2 := Attempt(urls[2], ext, fetch, decompress).error;
            var log := Line(f0) + Line(f1) + Line(f2);
            && Failures(urls, 3, ext, fetch, decompress) == [f0, f1, f2]
            && Outcome(interval, path, urls, ext, fetch, decompress, writeFile) == AllSourcesFailed(Errorf(log))
            && (Avoids(f0, '%') && Avoids(f1, '%') && Avoids(f2, '%') ==>
                  Outcome(interval, path, urls, ext, fetch, decompress, writeFile) == AllSourcesFailed(log))
            && f0.url == urlOf(Primary, cid, filename + ext)
            && f1.url == urlOf(Secondary, cid, filename + ext)
            && f2.url == urlOf(Github, network, filename)
  {
    var urls := SourceUrls(urlOf, cid, network, filename, ext);
    AllFailedLog(urls, ext, fetch, decompress);
    var f0 := Attempt(urls[0], ext, fetch, decompress).error;
    var f1 := Attempt(urls[1], ext, fetch, decompress).error;
    var f2 := Attempt(urls[2], ext, fetch, decompress).error;
    if Avoids(f0, '%') && Avoids(f1, '%') && Avoids(f2, '%') {
      TextAvoids(f0, '%');
      TextAvoids(f1, '%');
      TextAvoids(f2, '%');
      ErrorfWithoutPercent(Line(f0) + Line(f1) + Line(f2));
    }
  }

  /** The log of three URLs that all fail is their three lines, each naming its URL. */
  lemma AllFailedLog(urls: seq<string>, ext: string, fetch: string -> Fetch,
                     decompress: seq<bv8> -> Result<seq<bv8>, string>)
    requires |urls| == 3
    requires forall j :: 0 <= j < 3 ==> Attempt(urls[j], ext, fetch, decompress).Failure?
    ensures var f0 := Attempt(urls[0], ext, fetch, decompress).error;
            var f1 := Attempt(urls[1], ext, fetch, decompress).error;
            var f2 := Attempt(urls[2], ext, fetch, decompress).error;
            && FirstDownload(urls, ext, fetch, decompress) == 3
            && Failures(urls, 3, ext, fetch, decompress) == [f0, f1, f2]
            && Render(Failures(urls, 3, ext, fetch, decompress)) == Line(f0) + Line(f1) + Line(f2)
            && f0.url == urls[0] && f1.url == urls[1] && f2.url == urls[2]
  {
    AttemptSpec(urls[0], ext, fetch, decompress);
    AttemptSpec(urls[1], ext, fetch, decompress);
    AttemptSpec(urls[2], ext, fetch, decompress);
    var fs := [Attempt(urls[0], ext, fetch, decompress).error,
               Attempt(urls[1], ext, fetch, decompress).error,
               Attempt(urls[2], ext, fetch, decompress).error];
    assert FirstDownload(urls, ext, fetch, decompress) == 3;
    assert Failures(urls, 1, ext, fetch, decompress) == fs[..1];
    assert Failures(urls, 2, ext, fetch, decompress) == fs[..2];
    assert Failures(urls, 3, ext, fetch, decompress) == fs;
    assert fs[..1][..0] == [] && fs[..2][..1] == fs[..1] && fs[..3][..2] == fs[..2] && fs[..3] == fs;
    assert Render(fs[..1]) == Line(fs[0]);
    assert Render(fs[..2]) == Line(fs[0]) + Line(fs[1]);
  }

  /**
    The source passes the log to `fmt.Errorf` as its format, so a `%` in a
    failure is read as a directive. When all three sources fail and the
    primary's GET failed with the cause `bad %s`, the error does not hold the
    log: where the log has `bad %s`, the error has `bad %!s(MISSING)`
    (`Missing('s')`).
  */
  lemma PercentInCauseIsRewritten(interval: nat, path: string, urlOf: (Source, string, string) -> string,
                                  cid: string, network: string, filename: string, ext: string,
                                  fetch: string -> Fetch, decompress: seq<bv8> -> Result<seq<bv8>, string>,
                                  writeFile: (string, seq<bv8>) -> Option<string>)
    requires var urls := SourceUrls(urlOf, cid, network, filename, ext);
             && (forall j :: 0 <= j < 3 ==> Attempt(urls[j], ext, fetch, decompress).Failure?)
             && fetch(urls[0]) == GetFailed("bad %s")
             && '%' !in urls[0]
    ensures var urls := SourceUrls(urlOf, cid, network, filename, ext);
            var log := Render(Failures(urls, 3, ext, fetch, decompress));
            var before := "Downloading " + urls[0] + " failed (bad ";
            var after := ")\n" + Line(Attempt(urls[1], ext, fetch, decompress).error) +
                         Line(Attempt(urls[2], ext, fetch, decompress).error);
            && log == before + "%s" + after
            && Outcome(interval, path, urls, ext, fetch, decompress, writeFile) ==
                 AllSourcesFailed(before + Missing('s') + Format(log, |before| + 2))
            && Outcome(interval, path, urls, ext, fetch, decompress, writeFile).message != log
  {
    var urls := SourceUrls(urlOf, cid, network, filename, ext);
    AllFailedLog(urls, ext, fetch, decompress);
    OutcomeAllFailed(interval, path, urls, ext, fetch, decompress, writeFile);
    var f0 := Attempt(urls[0], ext, fetch, decompress).error;
    var f1 := Attempt(urls[1], ext, fetch, decompress).error;
    var f2 := Attempt(urls[2], ext, fetch, decompress).error;
    var before := "Downloading " + urls[0] + " failed (bad ";
    var after := ")\n" + Line(f1) + Line(f2);
    assert f0 == TransportFailed(urls[0], "bad %s");
    TransportLineSplits(urls[0], Line(f1), Line(f2));
    PlainVerbRewritten(before, "s" + after);
    PlainVerbChangesText(before, "s" + after);
  }

  /** The log of a transport failure with cause `bad %s` and two more lines, split at its `%`. */
  lemma TransportLineSplits(u: string, a: string, b: string)
    requires '%' !in u
    ensures var before := "Downloading " + u + " failed (bad ";
            && '%' !in before
            && Line(TransportFailed(u, "bad %s")) + a + b == before + "%" + ("s" + (")\n" + a + b))
            && before + "%" + ("s" + (")\n" + a + b)) == before + "%s" + (")\n" + a + b)
  {
    var before := "Downloading " + u + " failed (bad ";
    assert '%' !in before by {
      assert '%' !in "Downloading " && '%' !in " failed (bad ";
    }
    TransportTextSplits(u);
    SplitRegroups(before, a, b);
  }

  /** The text of a transport failure with cause `bad %s`, split at its `%`. */
  lemma TransportTextSplits(u: string)
    ensures Text(TransportFailed(u, "bad %s")) == "Downloading " + u + " failed (bad " + "%" + "s" + ")"
  {
    assert " failed (" + "bad %s" == " failed (bad " + "%" + "s";
  }

  /** Regrouping a line split at a `%s` and followed by two more lines. */
  lemma SplitRegroups(before: string, a: string, b: string)
    ensures before + "%" + "s" + ")" + "\n" + a + b == before + "%" + ("s" + (")\n" + a + b))
    ensures before + "%" + ("s" + (")\n" + a + b)) == before + "%s" + (")\n" + a + b)
  {
    assert ")" + "\n" == ")\n";
    assert "%" + "s" == "%s";
  }

  /**
    The outcome the all-failed error evidently intends, the log itself (as
    `errors.New` or a `"%s"` format would give it); every other outcome is
    unchanged.
  */
  function OutcomeAsIntended(interval: nat, path: string, urls: seq<string>, ext: string, fetch: string -> Fetch,
                             decompress: seq<bv8> -> Result<seq<bv8>, string>,
                             writeFile: (string, seq<bv8>) -> Option<string>): DownloadResult
  {
    var r := Outcome(interval, path, urls, ext, fetch, decompress, writeFile);
    if r.AllSourcesFailed? then AllSourcesFailed(Render(Failures(urls, |urls|, ext, fetch, decompress))) else r
  }

  /**
    With the log as the error, when all three sources fail the error text is
    exactly their three failure lines, in order, whatever the failures hold;
    the source's own outcome agrees with it when no failure holds a `%`.
  */
  lemma IntendedMessageInOrder(interval: nat, path: string, urlOf: (Source, string, string) -> string,
                               cid: string, network: string, filename: string, ext: string,
                               fetch: string -> Fetch, decompress: seq<bv8> -> Result<seq<bv8>, string>,
                               writeFile: (string, seq<bv8>) -> Option<string>)
    requires var urls := SourceUrls(urlOf, cid, network, filename, ext);
             forall j :: 0 <= j < 3 ==> Attempt(urls[j], ext, fetch, decompress).Failure?
    ensures var urls := SourceUrls(urlOf, cid, network, filename, ext);
            var f0 := Attempt(urls[0], ext, fetch, decompress).error;
            var f1 := Attempt(urls[1], ext, fetch, decompress).error;
            var f2 := Attempt(urls[2], ext, fetch, decompress).error;
            var r := OutcomeAsIntended(interval, path, urls, ext, fetch, decompress, writeFile);
            && r == AllSourcesFailed(Line(f0) + Line(f1) + Line(f2))
            && (Avoids(f0, '%') && Avoids(f1, '%') && Avoids(f2, '%') ==>
                  Outcome(interval, path, urls, ext, fetch, decompress, writeFile) == r)
  {
    var urls := SourceUrls(urlOf, cid, network, filename, ext);
    AllFailedLog(urls, ext, fetch, decompress);
    AllFailedMessageInOrder(interval, path, urlOf, cid, network, filename, ext, fetch, decompress, writeFile);
  }
}
