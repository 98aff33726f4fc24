/** Names of log files and the order `CreateLogStore` loads them in. */
module FileNames {

  /** The name of a log file inside the store's directory. */
  type FileName = string

  /** Go's `<` on strings: lexicographic, a proper prefix first. (Go compares
      UTF-8 bytes; for UTF-8 that is the same as comparing code points.) */
  predicate Less(a: string, b: string)
    decreases |a|
  {
    if |a| == 0 then |b| > 0
    else if |b| == 0 then false
    else if a[0] != b[0] then a[0] < b[0]
    else Less(a[1..], b[1..])
  }

  lemma {:induction false} LessIrreflexive(a: string)
    ensures !Less(a, a)
    decreases |a|
  {
    if |a| > 0 {
      LessIrreflexive(a[1..]);
    }
  }

  lemma {:induction false} LessTransitive(a: string, b: string, c: string)
    requires Less(a, b) && Less(b, c)
    ensures Less(a, c)
    decreases |a|
  {
    if |a| > 0 && a[0] == b[0] == c[0] {
      LessTransitive(a[1..], b[1..], c[1..]);
    }
  }

  lemma {:induction false} LessTotal(a: string, b: string)
    requires a != b
    ensures Less(a, b) || Less(b, a)
    decreases |a|
  {
    if |a| > 0 && |b| > 0 && a[0] == b[0] {
      assert a == [a[0]] + a[1..] && b == [b[0]] + b[1..];
      LessTotal(a[1..], b[1..]);
    }
  }

  lemma {:induction false} LessAsymmetric(a: string, b: string)
    requires Less(a, b)
    ensures !Less(b, a)
  {
    if Less(b, a) {
      LessTransitive(a, b, a);
      LessIrreflexive(a);
    }
  }

  /** Strictly ascending: every name sorts before every later one. */
  predicate Sorted(s: seq<FileName>) {
    forall i, j :: 0 <= i < j < |s| ==> Less(s[i], s[j])
  }

  predicate Distinct(s: seq<FileName>) {
    forall i, j :: 0 <= i < j < |s| ==> s[i] != s[j]
  }

  /** Places `n` before the first name of `s` it sorts before. */
  function Insert(n: FileName, s: seq<FileName>): (r: seq<FileName>)
    ensures multiset(r) == multiset(s) + multiset{n}
  {
    if s == [] then [n]
    else if Less(n, s[0]) then [n] + s
    else
      assert s == [s[0]] + s[1..];
      [s[0]] + Insert(n, s[1..])
  }

  /** Inserting a new name into an ascending sequence keeps it ascending. */
  lemma {:induction false} InsertSorted(n: FileName, s: seq<FileName>)
    requires Sorted(s) && n !in s
    ensures Sorted(Insert(n, s))
  {
    if s == [] {
    } else if Less(n, s[0]) {
      forall j | 0 < j < |s|
        ensures Less(n, s[j])
      {
        LessTransitive(n, s[0], s[j]);
      }
    } else {
      LessTotal(n, s[0]);
      InsertSorted(n, s[1..]);
      var rest := Insert(n, s[1..]);
      forall j | 0 <= j < |rest|
        ensures Less(s[0], rest[j])
      {
        assert rest[j] in multiset(rest);
        assert rest[j] == n || rest[j] in multiset(s[1..]);
      }
    }
  }

  /** `sort.Slice(logFiles, ... Name() < Name() ...)`: the directory listing
      in ascending name order. Names in a directory are distinct. */
  function SortNames(s: seq<FileName>): (r: seq<FileName>)
    requires Distinct(s)
    ensures Sorted(r) && multiset(r) == multiset(s)
  {
    if s == [] then []
    else
      var init := s[..|s| - 1];
      var sorted := SortNames(init);
      assert s == init + [s[|s| - 1]];
      assert s[|s| - 1] !in multiset(init);
      InsertSorted(s[|s| - 1], sorted);
      Insert(s[|s| - 1], sorted)
  }
}
