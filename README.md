# dusty: tag retention for an Azure Container Registry, modelled in Dafny

dusty cleans up a container registry. It works through every repository in the
registry. For each one it lists the tags, sorts them by creation time with the
oldest first, and deletes all but the newest `limit` of them. A dry run sends no
delete requests. The first delete that the registry does not accept with
HTTP 202 stops the whole process. Before any of this, the command-line
configuration is checked. The registry name, client id and client secret come
from flags, or from the `DUSTY_*` environment variables when a flag is empty. A
limit that is missing or not positive is read from `DUSTY_TAG_LIMIT`. A bare
registry name is expanded to `https://<name>.azurecr.io:443`.

This Dafny project models two parts of dusty:

- the retention code in `main.go`: the `byDate` order and the in-place sort, the
  `deleteTags` loop, the two listings and the per-repository worker
  `processRepo`;
- the validator `Config.IsValid` in `cli.go`.

Files and modules:

- `lex.dfy`, module `Lex`: Go's `<` on strings, written as an explicit
  lexicographic order. Dafny's own `<` on sequences means "proper prefix". The
  module proves that this order matches the textbook definition, and that it is
  a strict total order.
- `strconv.dfy`, modules `Wrappers` (Option) and `Strconv`: `strconv.Atoi` as a
  partial function, with its 64-bit range.
- `cli.dfy`, module `Cli`: the `Config` class and its method `IsValid`, which
  updates the fields in place. The pure function `Validate` specifies it, and
  the lemmas about validation are proved on `Validate`.
- `tags.dfy`, module `Tags`: the `Tag` record, `byDate`'s `Less` and `Swap` on an
  `array<Tag>`, and the in-place sort.
- `registry.dfy`, module `Registry`: the endpoint URLs, the listings, the
  `deleteTags` loop and `processRepo`. `ExpectedRun` is a reference definition
  of a `deleteTags` run, and the lemmas about the run are proved on it.

Calls the model cannot see are passed in as parameters:

- the environment is a `map<string, string>`, where an absent key reads as `""`;
- the registry's answers are oracle functions from a request URL to a response.
  A listing response has its body already decoded. A DELETE response is just
  its status code.

Every fatal stop in the modelled functions becomes an outcome value. That
covers `log.Fatal`, `log.Fatalf`, the `checkError` on a failed listing in
`processRepo`, and Go's panic on an out-of-range index. The `checkError` calls
in `executeRequest` and `main` are outside the model.

Three behaviours of the code are worth knowing, and the model keeps them:

- `IsValid` keeps a positive flag value, but it accepts any integer that
  `DUSTY_TAG_LIMIT` holds, including `0` and negative numbers. It never checks
  that the parsed value is positive (`NonPositiveEnvLimitAccepted`).
- A limit of 0 makes the loop visit every tag. A negative limit for which
  `len(tags) - limit` does not overflow sends the loop of `deleteTags` past
  the end of the slice, and Go panics when it reads `tags[index]` there. That
  read happens when verbose logging is on or when this is not a dry run. In a
  live run whose DELETEs are all accepted, every tag has been deleted by then
  (`NegativeLimitRunsPastSlice`). A verbose dry run panics having deleted
  nothing.
- `processRepo` passes the listing body's `ImageName` to `deleteTags`, not the
  repository name it asked for, so the delete URLs are built from that name.
  `ProcessRepo` does the same.

The limit is a 64-bit integer (`Strconv.Int64`), as Go's `int` is on a 64-bit
platform, and a slice's length is at most the largest such integer. The loop
bound `len(tags)-limit` is computed with 64-bit wrap-around (`WrapInt64`). For
the most negative limits the difference overflows to a negative number, and the
loop runs through no index (`MinimumLimitWrapsToNothing`).

## Model

| member | source | states |
|---|---|---|
| `Lex.LexLessIsLexBefore` | main.go:56 | Go's `<` on two strings holds exactly when they part at some position: before it they agree, and at it the first string has ended while the second goes on, or has the smaller character. Proved in both directions. |
| `Lex.LexLessIrreflexive` | main.go:56 | No creation time is before itself. |
| `Lex.LexLessTransitive` | main.go:56 | The order on creation times is transitive. |
| `Lex.LexLessTotal` | main.go:56 | Any two different creation times are ordered one way or the other. |
| `Lex.NotAfterReflexive` | main.go:56 | "Not after" (the `<=` of the sort) is reflexive. |
| `Lex.NotAfterTotal` | main.go:56 | "Not after" relates every pair of strings one way or the other. |
| `Lex.NotAfterTransitive` | main.go:56 | "Not after" is transitive, so the sorted order is consistent. |
| `Lex.LessThenNotAfter` | main.go:56 | Strictly before, then not after, gives strictly before. |
| `Tags.Less` | main.go:55-57 | `Less(i, j)` holds exactly when tag i's `CreatedTime` is lexicographically before tag j's. |
| `Tags.Swap` | main.go:51-53 | Exchanges positions i and j. Every other element and the length stay the same, and the contents are the same multiset. |
| `Tags.IndexOfOldest` | main.go:138 | Returns a position in `s[from..]` whose tag was created no later than any other tag in that range. It compares only through `Less`. |
| `Tags.SelectionStep` | main.go:138 | Moving an oldest tag of the unsorted part to its front, by one exchange, extends the sorted prefix by one and keeps every tag in the prefix no later than every tag after it. |
| `Tags.SortByDate` | main.go:138 | Sorts the array in place, oldest first: no tag is created after a later one. The result is a permutation of the input, and the array is changed only through `Swap`. |
| `Strconv.Atoi` | cli.go:74 | On success the value is a 64-bit integer, read from a non-empty string of decimal digits after an optional sign. |
| `Strconv.DigitsValueOfFormatNat` | cli.go:74 | The digits of a natural number's decimal rendering read back as that number. |
| `Strconv.AtoiItoa` | cli.go:74 | `Atoi` reads back the decimal rendering of every 64-bit integer. |
| `Strconv.AtoiWellFormed` | cli.go:74-76 | On a sign followed by digits, `Atoi` succeeds exactly when the signed value of the digits fits in 64 bits, and then returns that value; otherwise it fails, as Go's range error does. |
| `Strconv.DigitsValueLeadingZero` | cli.go:74 | A leading zero does not change the value of a digit string. |
| `Strconv.AtoiNonCanonical` | cli.go:74 | Leading zeros and an explicit `+` are accepted and change nothing: `"007"` and `"+7"` read as `"7"` does. |
| `Strconv.AtoiItoaOutOfRange` | cli.go:74-76 | The decimal rendering of any integer outside the 64-bit range fails to parse. |
| `Strconv.AtoiRejects` | cli.go:74-76 | `Atoi` fails on `""`, on a lone sign, and on any non-digit after the sign. |
| `Cli.Fill` | cli.go:48-70 | A required field is available exactly when its flag or its environment variable is non-empty. A non-empty flag value is kept, and an empty flag value is replaced by the environment's value. An available value is never empty. |
| `Cli.ResolveLimit` | cli.go:72-83 | A positive limit is kept. A limit `<= 0` is missing when `DUSTY_TAG_LIMIT` is empty. Otherwise it is the value `Atoi` reads from that variable, or fatal exactly when `Atoi` fails. |
| `Cli.RegistryUrl` | cli.go:86-88 | The endpoint always starts with "http". A name is left unchanged exactly when it already starts with "http". A name that does not is wrapped as `https://<name>.azurecr.io:443`. |
| `Cli.Config.constructor` | cli.go:12-19 | A `Config` holds the six values the flags were parsed to. |
| `Cli.Config.IsValid` | cli.go:46-91 | Updates the fields step by step, with early returns. The verdict and the new field values are those of `Validate`, which runs the four checks in source order and stops at the first failure. Only after all four pass does it normalise the registry name. |
| `Cli.MissingValueRejected` | cli.go:48-70 | If the registry name, the client id or the client secret is empty both as a flag and in its environment variable, validation returns false. |
| `Cli.FlagsWin` | cli.go:48-64 | A non-empty flag value is never overwritten from the environment, and a positive limit is never replaced. The registry name changes only by normalisation, on success. The verbose and dry-run switches never change. |
| `Cli.VerdictExactly` | cli.go:46-91 | Validation succeeds exactly when all three strings are available and the limit is positive or `DUSTY_TAG_LIMIT` parses. It is fatal exactly when the strings are available, the limit is `<= 0`, and `DUSTY_TAG_LIMIT` is set but does not parse. |
| `Cli.ValidConfig` | cli.go:48-90 | After success, the registry name, the client id and the client secret are non-empty, and the registry starts with "http". The limit is the positive flag value or the parsed `DUSTY_TAG_LIMIT`. |
| `Cli.StopsAtFirstFailure` | cli.go:48-83 | A failed check leaves every later field as it was. Failure never normalises the registry name or changes the limit. |
| `Cli.RegistryUrlIdempotent` | cli.go:86-88 | Normalising an endpoint a second time changes nothing. |
| `Cli.ValidateIdempotent` | cli.go:46-91 | Validating an accepted configuration again, with the same environment, accepts it again and changes no field. |
| `Cli.NonPositiveEnvLimitAccepted` | cli.go:72-83 | With no limit flag, `DUSTY_TAG_LIMIT` set to `"0"` or `"-1"` is accepted as that limit. |
| `Registry.DeleteUrlUnderTagsUrl` | main.go:126 | A tag's delete URL is `<registry>/acr/v1/<repo>/_tags/<tag>`, which is the tag listing URL followed by `/<tag>`. |
| `Registry.DeleteUrlInjective` | main.go:126 | Different tag names in one repository get different delete URLs. |
| `Registry.GetRepositoryNames` | main.go:83-99 | The catalog is returned exactly when the answer's status is 200. Any other status is an error that carries that status. |
| `Registry.GetRepositoryTags` | main.go:101-117 | A repository's tags are returned exactly when the answer's status is 200. Any other status is an error that names the repository and carries the status. |
| `Registry.WrapInt64` | main.go:120 | Gives the 64-bit value equal to x modulo 2^64. It is the identity on values that already fit. |
| `Registry.DeleteCount` | main.go:120 | For a 64-bit limit and a slice length that fits in 64 bits: when `len(tags) - limit` fits, the loop runs through `max(0, len(tags) - limit)` indices; when it overflows, it wraps to a negative number and the loop runs through none. |
| `Registry.FirstRejected` | main.go:127-130 | The position of the first URL whose DELETE is not answered 202. Every earlier one was answered 202. |
| `Registry.DeleteTags` | main.go:119-133 | The loop's visited indices, its DELETE requests and its ending are those of `ExpectedRun`. The loop runs through `DeleteCount` indices in order. A dry run sends nothing. Otherwise DELETEs go out in index order and stop at the first status other than 202. Reading past the end of the slice stops the process. |
| `Registry.ProcessRepo` | main.go:135-150 | A listing status other than 200 stops the worker before any request is sent. Otherwise the tags are sorted oldest first into a permutation of the listing, and `deleteTags` runs on them with the listing's image name and the configured limit. |
| `Registry.DeleteBoundary` | main.go:120 | For a limit `>= 0`: the loop visits at most `max(0, len - limit)` indices, and exactly those when it completes. A completed real run sends exactly that many DELETEs. It never reads past the slice. With `len <= limit`, nothing is visited or sent. |
| `Registry.DryRunSendsNothing` | main.go:125-131 | A dry run sends no DELETE. The indices a real run visits are a prefix of those the dry run visits, and equal to them when the real run completes. Without verbose logging, a dry run always completes. |
| `Registry.StopsAtFirstRejection` | main.go:125-131 | DELETE k goes to the k-th oldest tag. When a DELETE is not answered 202, it is the last request sent: it targets the reported tag, carries the reported status, and every earlier request was accepted. |
| `Registry.KeptAreNewest` | main.go:138-148 | After the sort, the deleted prefix and the kept suffix together are exactly the listed tags. The kept part has `min(len, limit)` tags, and none of them was created before any deleted tag. |
| `Registry.ExampleKeepTwo` | main.go:119-133 | Tags a, b, c created at 1, 2, 3 with a limit of 2: only a is deleted. |
| `Registry.ExampleNoTags` | main.go:119-133 | A repository with no tags and a limit of 5: nothing is visited or sent, and the run completes. |
| `Registry.ExampleRejected` | main.go:127-130 | A DELETE of tag x answered with 500 stops the run, reporting x and 500. |
| `Registry.MinimumLimitWrapsToNothing` | main.go:120 | With the most negative 64-bit limit and any listing, the empty one included, `len(tags) - limit` overflows, and the loop visits nothing and sends nothing. |
| `Registry.NegativeLimitRunsPastSlice` | main.go:120-126 | For a negative limit where `len(tags) - limit` does not overflow: a live run whose DELETEs are all accepted deletes every tag and then stops at index `len(tags)`; a verbose dry run stops there having sent nothing; a quiet dry run visits `len(tags) - limit` indices and completes. |

## Left out

- `byDate.Len` has no member of its own. It is the array's `Length`.
- `sort.Sort`'s own algorithm (pattern-defeating quicksort) is library code. `SortByDate` is a selection sort over the same `Less` and `Swap`, and it promises what `sort.Sort` promises: an ordered permutation. Neither is stable, and for equal creation times the model may order tags differently from Go.
- `executeRequest` (HTTP transport and basic authentication) is replaced by the oracle functions. A transport error, which `checkError` makes fatal, is not modelled. An oracle keyed by URL cannot answer the same URL differently at different times.
- JSON decoding (`json.Unmarshal`) is a foreign library. Responses carry the decoded body, so a malformed body that decodes to an empty record is just a response with an empty body.
- The goroutine per repository, the `sync.WaitGroup` and `main` (concurrency and process start-up) are not modelled. `ProcessRepo` models one worker on its own, and a fatal stop in one worker is its outcome only, not the end of the other workers.
- Verbose logging prints nothing in the model. What is kept is that it reads `tags[index]`, and so can panic.
- The text of the log and error messages is not modelled. The outcomes keep the tag name or repository and the HTTP status.
- `Config.Setup` and `flag.Parse` (flag registration) are not modelled. The parsed flag values are the constructor's input.
- `os.Exit` and `fmt.Println` in `main` (process I/O) are not modelled.
- Go compares strings byte by byte. The model compares characters, which are code points. The two give the same order on well-formed UTF-8.
- Listing and deleting manifests belong to a variant of the tool that manages multi-architecture images. `main.go` has no such code, so the model has none.
