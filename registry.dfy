/**
  The registry side of the cleanup (main.go): the endpoints it calls, the two
  listings, the deletion loop `deleteTags`, and the per-repository worker
  `processRepo` that lists a repository's tags, sorts them oldest first and
  deletes all but the newest `imageLimit` of them.

  The registry is not called: each request is answered by an oracle function
  from the request URL to the response. A listing response arrives with its
  body already decoded (JSON decoding is not part of this model), and a DELETE
  response is its status code. Where the modelled functions stop the process
  (`log.Fatal`, `log.Fatalf`, the `checkError` on a failed listing in
  `processRepo`, or Go's run-time panic on an index past the end of a slice),
  the model ends the run with an outcome that says why.
 */
module Registry {
  import opened Lex
  import opened Tags
  import Strconv
  import Cli

  /** The status a listing must answer with (HTTP 200 OK). */
  const StatusOk: int := 200
  /** The status a DELETE must answer with (HTTP 202 Accepted). */
  const StatusAccepted: int := 202

  datatype RepositoryNames = RepositoryNames(repositories: seq<string>)

  /** The answers of the registry to a catalog GET and to a tags GET. */
  datatype CatalogResponse = CatalogResponse(status: int, body: RepositoryNames)
  datatype TagsResponse = TagsResponse(status: int, body: RepositoryTags)

  /** The errors the two listings return, with the status received. */
  datatype ListingError = CatalogRejected(status: int) | TagsRejected(repo: string, status: int)

  datatype Listed<T> = Listed(value: T) | NotListed(error: ListingError)

  /** How a worker's run ended: every planned index visited, or the process
      stopped by a listing error, by a DELETE that was not accepted, or by
      reading the tag at an index past the end of the slice. */
  datatype Outcome =
    | Completed
    | ListingFailed(error: ListingError)
    | DeleteRejected(tagName: string, status: int)
    | IndexOutOfRange(index: nat)

  /** What a run of deleteTags did: the loop indices it entered, in order, the
      URLs of the DELETE requests it sent, in order, and how it ended. */
  datatype DeleteRun = DeleteRun(visited: seq<nat>, issued: seq<string>, outcome: Outcome)

  function CatalogUrl(registryName: string): string
  {
    registryName + "/acr/v1/_catalog"
  }

  function TagsUrl(registryName: string, repo: string): string
  {
    registryName + "/acr/v1/" + repo + "/_tags"
  }

  function DeleteUrl(registryName: string, repo: string, tagName: string): string
  {
    registryName + "/acr/v1/" + repo + "/_tags/" + tagName
  }

  /** A tag is deleted at its own path under the repository's tag listing. */
  lemma DeleteUrlUnderTagsUrl(registryName: string, repo: string, tagName: string)
    ensures DeleteUrl(registryName, repo, tagName) == TagsUrl(registryName, repo) + "/" + tagName
  {
  }

  /** Different tag names of one repository give different DELETE URLs, so a
      DELETE never targets another tag of the repository than the one named. */
  lemma DeleteUrlInjective(registryName: string, repo: string, a: string, b: string)
    requires DeleteUrl(registryName, repo, a) == DeleteUrl(registryName, repo, b)
    ensures a == b
  {
    var prefix := TagsUrl(registryName, repo) + "/";
    DeleteUrlUnderTagsUrl(registryName, repo, a);
    DeleteUrlUnderTagsUrl(registryName, repo, b);
    assert a == (prefix + a)[|prefix|..];
    assert b == (prefix + b)[|prefix|..];
  }

  /** `getRepositoryNames`: the catalog is read only from a 200 answer; any
      other status is an error that carries it. */
  function GetRepositoryNames(config: Cli.Settings, get: string -> CatalogResponse): (r: Listed<RepositoryNames>)
    ensures var response := get(CatalogUrl(config.registryName));
      && (r.Listed? <==> response.status == StatusOk)
      && (r.Listed? ==> r.value == response.body)
      && (r.NotListed? ==> r.error == CatalogRejected(response.status))
  {
    var response := get(CatalogUrl(config.registryName));
    if response.status == StatusOk then Listed(response.body)
    else NotListed(CatalogRejected(response.status))
  }

  /** `getRepositoryTags`: a repository's tags are read only from a 200
      answer; any other status is an error naming the repository. */
  function GetRepositoryTags(config: Cli.Settings, repo: string, get: string -> TagsResponse): (r: Listed<RepositoryTags>)
    ensures var response := get(TagsUrl(config.registryName, repo));
      && (r.Listed? <==> response.status == StatusOk)
      && (r.Listed? ==> r.value == response.body)
      && (r.NotListed? ==> r.error == TagsRejected(repo, response.status))
  {
    var response := get(TagsUrl(config.registryName, repo));
    if response.status == StatusOk then Listed(response.body)
    else NotListed(TagsRejected(repo, response.status))
  }

  /** Go's 64-bit signed wrap-around: the int64 equal to x modulo 2^64. */
  function WrapInt64(x: int): (r: int)
    ensures Strconv.MinInt64 <= r <= Strconv.MaxInt64
    ensures (r - x) % 0x1_0000_0000_0000_0000 == 0
    ensures Strconv.MinInt64 <= x <= Strconv.MaxInt64 ==> r == x
  {
    (x - Strconv.MinInt64) % 0x1_0000_0000_0000_0000 + Strconv.MinInt64
  }

  /** How many indices the loop of deleteTags runs through: `len(tags)-limit`
      computed in 64-bit arithmetic, or none when that is not positive. A
      difference too large for 64 bits wraps around to a negative number, so
      the loop then runs through no index at all. */
  function DeleteCount(count: nat, limit: Strconv.Int64): (n: nat)
    requires count <= Strconv.MaxInt64
    ensures count - limit <= Strconv.MaxInt64 ==> n == if count > limit then count - limit else 0
    ensures count - limit > Strconv.MaxInt64 ==> n == 0
  {
    var bound := WrapInt64(count - limit);
    if bound > 0 then bound else 0
  }

  /** 0, 1, ..., n - 1. */
  function Indices(n: nat): (r: seq<nat>)
    ensures |r| == n && forall k :: 0 <= k < n ==> r[k] == k
  {
    if n == 0 then [] else Indices(n - 1) + [n - 1]
  }

  /** The DELETE URLs of the tags at indices below n that exist. */
  function PlannedUrls(registryName: string, repo: string, tags: seq<Tag>, n: nat): (urls: seq<string>)
    ensures |urls| == if n < |tags| then n else |tags|
  {
    var m := if n < |tags| then n else |tags|;
    seq(m, k requires 0 <= k < m => DeleteUrl(registryName, repo, tags[k].name))
  }

  /** The position of the first URL whose DELETE is not accepted, or the
      number of URLs when all are accepted. */
  function FirstRejected(urls: seq<string>, status: string -> int): (k: nat)
    ensures k <= |urls|
    ensures forall i :: 0 <= i < k ==> status(urls[i]) == StatusAccepted
    ensures k < |urls| ==> status(urls[k]) != StatusAccepted
  {
    if urls == [] || status(urls[0]) != StatusAccepted then 0
    else 1 + FirstRejected(urls[1..], status)
  }

  /** The run deleteTags makes, told from its end: the loop runs through
      DeleteCount indices; a dry run sends nothing; otherwise the DELETEs go
      out in index order until the first one that is not accepted. The tag at
      an index is read when verbose logging prints it or when a DELETE is
      built, and reading past the end of the slice stops the process. */
  function ExpectedRun(config: Cli.Settings, repo: string, tags: seq<Tag>, limit: Strconv.Int64, status: string -> int): DeleteRun
    requires |tags| <= Strconv.MaxInt64
  {
    var n := DeleteCount(|tags|, limit);
    var readsTag := config.verboseLogging || !config.dryRun;
    if config.dryRun then
      if readsTag && n > |tags| then DeleteRun(Indices(|tags| + 1), [], IndexOutOfRange(|tags|))
      else DeleteRun(Indices(n), [], Completed)
    else
      var urls := PlannedUrls(config.registryName, repo, tags, n);
      var f := FirstRejected(urls, status);
      if f < |urls| then
        DeleteRun(Indices(f + 1), urls[..f + 1], DeleteRejected(tags[f].name, status(urls[f])))
      else if n > |tags| then
        DeleteRun(Indices(|tags| + 1), urls, IndexOutOfRange(|tags|))
      else
        DeleteRun(Indices(n), urls, Completed)
  }

  /** `deleteTags`: walks the indices 0 .. len(tags)-limit-1 in order; unless
      this is a dry run, sends a DELETE for the tag at each index and stops at
      the first answer other than 202 Accepted. */
  method DeleteTags(config: Cli.Settings, repo: string, tags: seq<Tag>, limit: Strconv.Int64, status: string -> int)
    returns (run: DeleteRun)
    requires |tags| <= Strconv.MaxInt64
    ensures run == ExpectedRun(config, repo, tags, limit, status)
  {
    var n := DeleteCount(|tags|, limit);
    ghost var urls := PlannedUrls(config.registryName, repo, tags, n);
    var visited: seq<nat> := [];
    var issued: seq<string> := [];
    var index: nat := 0;
    while index < n
      invariant index <= n
      invariant config.verboseLogging || !config.dryRun ==> index <= |tags|
      invariant visited == Indices(index)
      invariant issued == if config.dryRun then [] else urls[..index]
      invariant !config.dryRun ==> forall k :: 0 <= k < index ==> status(urls[k]) == StatusAccepted
    {
      visited := visited + [index];
      if config.verboseLogging || !config.dryRun {
        if index >= |tags| {
          return DeleteRun(visited, issued, IndexOutOfRange(index));
        }
      }
      if !config.dryRun {
        var url := DeleteUrl(config.registryName, repo, tags[index].name);
        assert url == urls[index];
        issued := issued + [url];
        assert issued == urls[..index + 1];
        var answer := status(url);
        if answer != StatusAccepted {
          return DeleteRun(visited, issued, DeleteRejected(tags[index].name, answer));
        }
      }
      index := index + 1;
    }
    return DeleteRun(visited, issued, Completed);
  }

  /** `processRepo`: lists the repository's tags (a listing error stops the
      process), sorts them oldest first in place, and runs deleteTags on them
      under the image name the listing reports, keeping `imageLimit`. */
  method ProcessRepo(config: Cli.Settings, repo: string, get: string -> TagsResponse, status: string -> int)
    returns (sorted: seq<Tag>, run: DeleteRun)
    requires |get(TagsUrl(config.registryName, repo)).body.tags| <= Strconv.MaxInt64
    ensures var response := get(TagsUrl(config.registryName, repo));
      && (response.status != StatusOk ==>
            sorted == [] && run == DeleteRun([], [], ListingFailed(TagsRejected(repo, response.status))))
      && (response.status == StatusOk ==>
            && SortedByDate(sorted)
            && |sorted| == |response.body.tags|
            && multiset(sorted) == multiset(response.body.tags)
            && run == ExpectedRun(config, response.body.imageName, sorted, config.imageLimit, status))
  {
    var listed := GetRepositoryTags(config, repo, get);
    if listed.NotListed? {
      return [], DeleteRun([], [], ListingFailed(listed.error));
    }
    var fetched := listed.value.tags;
    var buffer := new Tag[|fetched|](k requires 0 <= k < |fetched| => fetched[k]);
    assert buffer[..] == fetched;
    SortByDate(buffer);
    sorted := buffer[..];
    run := DeleteTags(config, listed.value.imageName, sorted, config.imageLimit, status);
  }

  // Properties of the run.

  /** For a limit that is not negative, the loop visits exactly the first
      max(0, len(tags)-limit) indices, never reads past the slice, and when
      there are no more tags than the limit it visits and deletes nothing. */
  lemma DeleteBoundary(config: Cli.Settings, repo: string, tags: seq<Tag>, limit: Strconv.Int64, status: string -> int)
    requires 0 <= limit && |tags| <= Strconv.MaxInt64
    ensures var run := ExpectedRun(config, repo, tags, limit, status);
      var n := if |tags| > limit then |tags| - limit else 0;
      && !run.outcome.IndexOutOfRange?
      && (run.outcome == Completed ==> run.visited == Indices(n))
      && (run.outcome == Completed && !config.dryRun ==> |run.issued| == n)
      && |run.visited| <= n
      && (|tags| <= limit ==> run == DeleteRun([], [], Completed))
  {
  }

  /** In a dry run no DELETE is sent, and the loop visits the same indices as
      a live run does, up to where the live run stops. A dry run without
      verbose logging always completes. */
  lemma DryRunSendsNothing(config: Cli.Settings, repo: string, tags: seq<Tag>, limit: Strconv.Int64, status: string -> int)
    requires |tags| <= Strconv.MaxInt64
    ensures var dry := ExpectedRun(config.(dryRun := true), repo, tags, limit, status);
      var live := ExpectedRun(config.(dryRun := false), repo, tags, limit, status);
      && dry.issued == []
      && (!config.verboseLogging ==> dry.outcome == Completed && dry.visited == Indices(DeleteCount(|tags|, limit)))
      && live.visited == dry.visited[..|live.visited|]
      && (live.outcome == Completed ==> dry.visited == live.visited)
  {
  }

  /** A DELETE that is not accepted is the last request sent: every earlier
      one was accepted, it is the one for the failing tag, and nothing after
      it is sent. The requests sent are those of the oldest tags, in order. */
  lemma StopsAtFirstRejection(config: Cli.Settings, repo: string, tags: seq<Tag>, limit: Strconv.Int64, status: string -> int)
    requires |tags| <= Strconv.MaxInt64
    ensures var run := ExpectedRun(config, repo, tags, limit, status);
      && |run.issued| <= |tags|
      && (forall k :: 0 <= k < |run.issued| ==> run.issued[k] == DeleteUrl(config.registryName, repo, tags[k].name))
      && (run.outcome.DeleteRejected? ==>
            && |run.issued| > 0
            && run.outcome.status != StatusAccepted
            && run.outcome.status == status(run.issued[|run.issued| - 1])
            && run.issued[|run.issued| - 1] == DeleteUrl(config.registryName, repo, run.outcome.tagName)
            && (forall k :: 0 <= k < |run.issued| - 1 ==> status(run.issued[k]) == StatusAccepted))
      && (!run.outcome.DeleteRejected? ==> forall k :: 0 <= k < |run.issued| ==> status(run.issued[k]) == StatusAccepted)
  {
  }

  /** After the sort, every tag the loop leaves alone (the last `limit`) was
      created no earlier than every tag it deletes, and the two parts together
      are exactly the tags listed: the newest min(len, limit) tags are kept. */
  lemma KeptAreNewest(fetched: seq<Tag>, sorted: seq<Tag>, limit: Strconv.Int64)
    requires SortedByDate(sorted) && multiset(sorted) == multiset(fetched)
    requires 0 <= limit && |fetched| <= Strconv.MaxInt64
    ensures |sorted| == |fetched|
    ensures var d := DeleteCount(|fetched|, limit);
      && d <= |sorted|
      && |sorted[d..]| == (if |fetched| < limit then |fetched| else limit)
      && multiset(sorted[..d]) + multiset(sorted[d..]) == multiset(fetched)
      && forall i, j :: 0 <= i < d <= j < |sorted| ==> NotAfter(sorted[i].createdTime, sorted[j].createdTime)
  {
    assert |sorted| == |multiset(sorted)| == |fetched|;
    var d := DeleteCount(|fetched|, limit);
    assert sorted[..d] + sorted[d..] == sorted;
  }

  /** Repository "foo" with tags a, b, c created at times 1, 2, 3 and a limit
      of 2: only a is deleted, and b and c are kept. */
  lemma ExampleKeepTwo(config: Cli.Settings, a: Tag, b: Tag, c: Tag, status: string -> int)
    requires !config.dryRun
    requires a.name == "a" && a.createdTime == "1"
    requires b.name == "b" && b.createdTime == "2"
    requires c.name == "c" && c.createdTime == "3"
    requires status(DeleteUrl(config.registryName, "foo", "a")) == StatusAccepted
    ensures SortedByDate([a, b, c])
    ensures ExpectedRun(config, "foo", [a, b, c], 2, status)
              == DeleteRun([0], [DeleteUrl(config.registryName, "foo", "a")], Completed)
  {
  }

  /** Repository "bar" with no tags and a limit of 5: nothing is visited or
      sent, and the run completes. */
  lemma ExampleNoTags(config: Cli.Settings, status: string -> int)
    ensures ExpectedRun(config, "bar", [], 5, status) == DeleteRun([], [], Completed)
  {
  }

  /** A DELETE of tag x answered with 500 stops the run, reporting x and 500. */
  lemma ExampleRejected(config: Cli.Settings, repo: string, x: Tag, status: string -> int)
    requires !config.dryRun && status(DeleteUrl(config.registryName, repo, x.name)) == 500
    ensures ExpectedRun(config, repo, [x], 0, status).outcome == DeleteRejected(x.name, 500)
  {
  }

  /** A negative limit (which IsValid accepts from DUSTY_TAG_LIMIT) for which
      `len(tags)-limit` does not overflow makes the loop run past the end of
      the slice. In a live run whose DELETEs are all accepted, every tag is
      deleted and the process then stops on the out-of-range index. A verbose
      dry run stops there too, having sent nothing; a quiet dry run never reads
      a tag and completes. */
  lemma NegativeLimitRunsPastSlice(config: Cli.Settings, repo: string, tags: seq<Tag>, limit: Strconv.Int64, status: string -> int)
    requires limit < 0 && |tags| - limit <= Strconv.MaxInt64
    requires !config.dryRun ==>
               forall k :: 0 <= k < |tags| ==> status(DeleteUrl(config.registryName, repo, tags[k].name)) == StatusAccepted
    ensures var run := ExpectedRun(config, repo, tags, limit, status);
      && (config.verboseLogging || !config.dryRun ==> run.outcome == IndexOutOfRange(|tags|) && run.visited == Indices(|tags| + 1))
      && (config.dryRun && !config.verboseLogging ==> run.outcome == Completed && |run.visited| == |tags| - limit)
      && run.issued == if config.dryRun then [] else PlannedUrls(config.registryName, repo, tags, |tags|)
  {
  }

  /** The most negative limit makes `len(tags)-limit` overflow to a negative
      number, so the loop runs through no index and nothing is sent. */
  lemma MinimumLimitWrapsToNothing(config: Cli.Settings, repo: string, tags: seq<Tag>, status: string -> int)
    requires |tags| <= Strconv.MaxInt64
    ensures ExpectedRun(config, repo, tags, Strconv.MinInt64, status) == DeleteRun([], [], Completed)
  {
  }
}
