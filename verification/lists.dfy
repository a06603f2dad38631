/** String slices: search, in-place removal (utils.go), joining and splitting on commas. */
module Lists {

  ghost predicate NoDups<T>(s: seq<T>) {
    forall i, j :: 0 <= i < j < |s| ==> s[i] != s[j]
  }

  function Elements<T>(s: seq<T>): set<T> {
    set x | x in s
  }

  lemma NoDupsMultiset<T>(s: seq<T>)
    requires NoDups(s)
    ensures multiset(s) == multiset(Elements(s))
    ensures |s| == |Elements(s)|
  {
    if s == [] {
      assert Elements(s) == {};
    } else {
      var init, last := s[..|s| - 1], s[|s| - 1];
      NoDupsMultiset(init);
      assert s == init + [last];
      assert Elements(s) == Elements(init) + {last};
    }
  }

  /** The first match and whether there is one; -1 when there is none. */
  method InSlice<T(==)>(slice: seq<T>, val: T) returns (i: int, found: bool)
    ensures found <==> val in slice
    ensures found ==> 0 <= i < |slice| && slice[i] == val && val !in slice[..i]
    ensures !found ==> i == -1
  {
    for k := 0 to |slice|
      invariant val !in slice[..k]
    {
      if slice[k] == val {
        return k, true;
      }
    }
    assert slice[..|slice|] == slice;
    return -1, false;
  }

  /** Swap the i-th element with the last one, then cut the last one off. */
  function SwapRemoved<T>(s: seq<T>, i: nat): seq<T>
    requires i < |s|
  {
    s[i := s[|s| - 1]][..|s| - 1]
  }

  lemma SwapRemovedMultiset<T>(s: seq<T>, i: nat)
    requires i < |s|
    ensures multiset(SwapRemoved(s, i)) == multiset(s) - multiset{s[i]}
  {
    var last := s[|s| - 1];
    assert s[i := last] == SwapRemoved(s, i) + [last];
    assert multiset(s[i := last]) == multiset(s) - multiset{s[i]} + multiset{last};
    assert multiset(SwapRemoved(s, i)) + multiset{last} == multiset(s[i := last]);
    assert multiset(SwapRemoved(s, i)) == multiset(s[i := last]) - multiset{last};
  }

  lemma SwapRemovedElements<T>(s: seq<T>, i: nat)
    requires i < |s| && NoDups(s)
    ensures NoDups(SwapRemoved(s, i))
    ensures forall x :: x in SwapRemoved(s, i) <==> x in s && x != s[i]
  {
    var r := SwapRemoved(s, i);
    assert forall j :: 0 <= j < |r| ==> r[j] == if j == i then s[|s| - 1] else s[j];
    forall x | x in s && x != s[i] ensures x in r {
      var j :| 0 <= j < |s| && s[j] == x;
      assert r[if j == |s| - 1 then i else j] == x;
    }
  }

  /** The source swaps inside the backing array of the slice it was given. */
  method RemoveFromSlice<T>(slice: array<T>, i: nat) returns (rest: seq<T>)
    requires i < slice.Length
    modifies slice
    ensures rest == SwapRemoved(old(slice[..]), i)
    ensures slice[..] == rest + [old(slice[i])]
  {
    var last := slice.Length - 1;
    slice[last], slice[i] := slice[i], slice[last];
    rest := slice[..last];
  }

  /** The same on a slice that nobody else holds. */
  method CutFromSlice<T>(slice: seq<T>, i: nat) returns (rest: seq<T>)
    requires i < |slice|
    ensures rest == SwapRemoved(slice, i)
  {
    var backing := new T[|slice|](j requires 0 <= j < |slice| => slice[j]);
    assert backing[..] == slice;
    rest := RemoveFromSlice(backing, i);
  }

  // --- Joining and splitting -----------------------------------------------------------

  function Join(parts: seq<string>, sep: char): string {
    if parts == [] then ""
    else if |parts| == 1 then parts[0]
    else parts[0] + [sep] + Join(parts[1..], sep)
  }

  function Split(s: string, sep: char): (parts: seq<string>)
    ensures parts != []
    ensures forall p :: p in parts ==> sep !in p
  {
    if s == "" then [""]
    else
      var rest := Split(s[1..], sep);
      if s[0] == sep then [""] + rest else [[s[0]] + rest[0]] + rest[1..]
  }

  lemma SplitWithoutSeparator(s: string, sep: char)
    requires sep !in s
    ensures Split(s, sep) == [s]
  {
    if s != "" {
      SplitWithoutSeparator(s[1..], sep);
      assert [s[0]] + s[1..] == s;
    }
  }

  /** A split has more than one part exactly if there is a separator, and more than two if there are two. */
  lemma {:induction false} PartsCountSeparators(s: string, sep: char)
    ensures |Split(s, sep)| > 1 <==> sep in s
    ensures |Split(s, sep)| > 2 <==> exists i, j :: 0 <= i < j < |s| && s[i] == sep && s[j] == sep
  {
    if s != "" {
      var tail := s[1..];
      PartsCountSeparators(tail, sep);
      assert s == [s[0]] + tail;
      if i, j :| 0 <= i < j < |tail| && tail[i] == sep && tail[j] == sep {
        assert s[i + 1] == sep && s[j + 1] == sep;
      }
      if i, j :| 0 <= i < j < |s| && s[i] == sep && s[j] == sep {
        assert tail[j - 1] == sep;
        assert i > 0 ==> tail[i - 1] == sep;
      }
      if j :| 0 <= j < |tail| && s[0] == sep && tail[j] == sep {
        assert s[j + 1] == sep;
      }
    }
  }

  /** Joining undoes splitting. */
  lemma {:induction false} JoinSplit(s: string, sep: char)
    ensures Join(Split(s, sep), sep) == s
  {
    if s != "" {
      JoinSplit(s[1..], sep);
      var rest := Split(s[1..], sep);
      assert s == [s[0]] + s[1..];
      if s[0] == sep {
        assert ([""] + rest)[1..] == rest;
      } else {
        assert ([[s[0]] + rest[0]] + rest[1..])[1..] == rest[1..];
      }
    }
  }

  lemma {:induction false} SplitAtFirstSeparator(head: string, tail: string, sep: char)
    requires sep !in head
    ensures Split(head + [sep] + tail, sep) == [head] + Split(tail, sep)
  {
    var whole := head + [sep] + tail;
    if head == "" {
      assert whole[1..] == tail;
    } else {
      SplitAtFirstSeparator(head[1..], tail, sep);
      assert whole[1..] == head[1..] + [sep] + tail;
      assert [head[0]] + head[1..] == head;
      assert Split(whole[1..], sep)[1..] == Split(tail, sep);
    }
  }

  /** Splitting undoes joining a nonempty list exactly when no part holds the separator. */
  lemma {:induction false} SplitJoin(parts: seq<string>, sep: char)
    requires parts != []
    ensures Split(Join(parts, sep), sep) == parts <==> forall p :: p in parts ==> sep !in p
  {
    if forall p :: p in parts ==> sep !in p {
      if |parts| == 1 {
        SplitWithoutSeparator(parts[0], sep);
      } else {
        SplitJoin(parts[1..], sep);
        SplitAtFirstSeparator(parts[0], Join(parts[1..], sep), sep);
        assert parts == [parts[0]] + parts[1..];
      }
    }
  }
}
