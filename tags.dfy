/**
  The tag records a registry lists for a repository (main.go), and the
  `byDate` ordering the cleanup sorts them by: a slice of tags ordered by the
  text of their creation time, oldest first.

  `byDate` works on the slice in place through the three methods of Go's
  sort interface. The slice is an array here; its length (`Len`) is the
  array's Length. `sort.Sort` is library code whose algorithm is not part of
  this model; SortByDate sorts through the same two operations, Less and Swap,
  and promises what `sort.Sort` promises: the result is ordered and is a
  rearrangement of the input. Like `sort.Sort`, it is not stable.
 */
module Tags {
  import opened Lex

  datatype ChangeableAttributes = ChangeableAttributes(
    deleteEnabled: bool,
    writeEnabled: bool,
    readEnabled: bool,
    listEnabled: bool)

  datatype Tag = Tag(
    name: string,
    digest: string,
    createdTime: string,
    lastUpdateTime: string,
    signed: bool,
    changeableAttributes: ChangeableAttributes)

  /** The decoded body of a tag listing. */
  datatype RepositoryTags = RepositoryTags(registry: string, imageName: string, tags: seq<Tag>)

  /** Tag s[i] was created strictly before tag s[j], comparing the creation
      times as text. */
  predicate Less(s: array<Tag>, i: nat, j: nat)
    requires i < s.Length && j < s.Length
    reads s
    ensures Less(s, i, j) <==> LexBefore(s[i].createdTime, s[j].createdTime)
  {
    LexLessIsLexBefore(s[i].createdTime, s[j].createdTime);
    LexLess(s[i].createdTime, s[j].createdTime)
  }

  /** Exchanges elements i and j and nothing else. */
  method Swap(s: array<Tag>, i: nat, j: nat)
    requires i < s.Length && j < s.Length
    modifies s
    ensures s[..] == old(s[..])[i := old(s[j])][j := old(s[i])]
    ensures multiset(s[..]) == multiset(old(s[..]))
  {
    var t := s[i];
    s[i] := s[j];
    s[j] := t;
  }

  /** Oldest first: no tag is created after a tag that comes later. */
  predicate SortedByDate(s: seq<Tag>)
  {
    forall i, j :: 0 <= i < j < |s| ==> NotAfter(s[i].createdTime, s[j].createdTime)
  }

  /** The position of an oldest tag among s[from..]. */
  method IndexOfOldest(s: array<Tag>, from: nat) returns (m: nat)
    requires from < s.Length
    ensures from <= m < s.Length
    ensures forall k :: from <= k < s.Length ==> NotAfter(s[m].createdTime, s[k].createdTime)
  {
    m := from;
    NotAfterReflexive(s[m].createdTime);
    var j := from + 1;
    while j < s.Length
      invariant from <= m < j <= s.Length
      invariant forall k :: from <= k < j ==> NotAfter(s[m].createdTime, s[k].createdTime)
    {
      if Less(s, j, m) {
        forall k | from <= k < j
          ensures NotAfter(s[j].createdTime, s[k].createdTime)
        {
          LessThenNotAfter(s[j].createdTime, s[m].createdTime, s[k].createdTime);
          if LexLess(s[k].createdTime, s[j].createdTime) {
            LexLessTransitive(s[j].createdTime, s[k].createdTime, s[j].createdTime);
            LexLessIrreflexive(s[j].createdTime);
          }
        }
        NotAfterReflexive(s[j].createdTime);
        m := j;
      }
      j := j + 1;
    }
  }

  /** The first i tags are in order. */
  predicate PrefixSorted(t: seq<Tag>, i: nat)
  {
    forall k, l :: 0 <= k < l < i && l < |t| ==> NotAfter(t[k].createdTime, t[l].createdTime)
  }

  /** No tag among the first i is created after a tag from position i on. */
  predicate Partitioned(t: seq<Tag>, i: nat)
  {
    forall k, l :: 0 <= k < i <= l < |t| ==> NotAfter(t[k].createdTime, t[l].createdTime)
  }

  /** Moving an oldest tag of t[i..] to position i extends the sorted,
      partitioned prefix by one. */
  lemma SelectionStep(t: seq<Tag>, i: nat, m: nat)
    requires i <= m < |t|
    requires PrefixSorted(t, i) && Partitioned(t, i)
    requires forall k :: i <= k < |t| ==> NotAfter(t[m].createdTime, t[k].createdTime)
    ensures PrefixSorted(t[i := t[m]][m := t[i]], i + 1)
    ensures Partitioned(t[i := t[m]][m := t[i]], i + 1)
  {
  }

  /** Sorts the tags in place, oldest first: the `sort.Sort(byDate(...))` step. */
  method SortByDate(s: array<Tag>)
    modifies s
    ensures SortedByDate(s[..])
    ensures multiset(s[..]) == multiset(old(s[..]))
  {
    var i := 0;
    while i < s.Length
      invariant 0 <= i <= s.Length
      invariant PrefixSorted(s[..], i) && Partitioned(s[..], i)
      invariant multiset(s[..]) == multiset(old(s[..]))
    {
      var m := IndexOfOldest(s, i);
      SelectionStep(s[..], i, m);
      Swap(s, i, m);
      i := i + 1;
    }
  }
}
