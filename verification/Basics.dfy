/** Datatypes shared by every part of the model. */
module Wrappers {
  datatype Option<+T> = None | Some(value: T)

  datatype Result<+T, +E> = Ok(value: T) | Err(error: E)
}

/** Bounds of machine integers. */
module Widths {
  const U64_MAX: nat := 0xFFFF_FFFF_FFFF_FFFF
}

/** Orders and the stable sort that `BTreeMap` iteration and `sort_by` stand on. */
module Orders {

  ghost predicate TotalPreorder<T(!new)>(le: (T, T) -> bool) {
    && (forall x, y :: le(x, y) || le(y, x))
    && (forall x, y, z :: le(x, y) && le(y, z) ==> le(x, z))
  }

  ghost predicate SortedBy<T>(le: (T, T) -> bool, s: seq<T>) {
    forall i, j :: 0 <= i < j < |s| ==> le(s[i], s[j])
  }

  /** Places `x` before the first element it does not exceed, which keeps the sort stable. */
  function Insert<T>(x: T, s: seq<T>, le: (T, T) -> bool): (r: seq<T>)
    ensures multiset(r) == multiset([x]) + multiset(s)
  {
    if s == [] then [x]
    else if le(x, s[0]) then [x] + s
    else
      assert s == [s[0]] + s[1..];
      [s[0]] + Insert(x, s[1..], le)
  }

  function Sort<T>(s: seq<T>, le: (T, T) -> bool): (r: seq<T>)
    ensures multiset(r) == multiset(s)
  {
    if s == [] then []
    else
      assert s == [s[0]] + s[1..];
      Insert(s[0], Sort(s[1..], le), le)
  }

  lemma {:induction false} InsertSorted<T(!new)>(x: T, s: seq<T>, le: (T, T) -> bool)
    requires TotalPreorder(le) && SortedBy(le, s)
    ensures SortedBy(le, Insert(x, s, le))
  {
    if s != [] && !le(x, s[0]) {
      InsertSorted(x, s[1..], le);
      var r := Insert(x, s[1..], le);
      forall j | 0 <= j < |r| ensures le(s[0], r[j]) {
        assert r[j] in multiset(r);
        assert r[j] in multiset([x]) + multiset(s[1..]);
      }
    } else if s != [] {
      assert forall j :: 0 <= j < |s| ==> le(s[0], s[j]) by {
        assert le(s[0], s[0]);
      }
    }
  }

  lemma {:induction false} SortSorted<T(!new)>(s: seq<T>, le: (T, T) -> bool)
    requires TotalPreorder(le)
    ensures SortedBy(le, Sort(s, le))
  {
    if s != [] {
      SortSorted(s[1..], le);
      InsertSorted(s[0], Sort(s[1..], le), le);
    }
  }

  lemma SameMembers<T>(a: seq<T>, b: seq<T>)
    requires multiset(a) == multiset(b)
    ensures |a| == |b|
    ensures forall x :: x in a <==> x in b
  {
    assert |multiset(a)| == |multiset(b)|;
    forall x ensures x in a <==> x in b {
      assert x in multiset(a) <==> x in multiset(b);
    }
  }

  /** Lexicographic order, the order of Rust's strings over their bytes. */
  predicate LexLeq(a: seq<int>, b: seq<int>) {
    a == [] || (b != [] && (a[0] < b[0] || (a[0] == b[0] && LexLeq(a[1..], b[1..]))))
  }

  lemma {:induction false} LexTotal(a: seq<int>, b: seq<int>)
    ensures LexLeq(a, b) || LexLeq(b, a)
    ensures LexLeq(a, b) && LexLeq(b, a) ==> a == b
  {
    if a != [] && b != [] {
      LexTotal(a[1..], b[1..]);
      assert a == [a[0]] + a[1..] && b == [b[0]] + b[1..];
    }
  }

  lemma {:induction false} LexTransitive(a: seq<int>, b: seq<int>, c: seq<int>)
    requires LexLeq(a, b) && LexLeq(b, c)
    ensures LexLeq(a, c)
  {
    if a != [] && a[0] == b[0] == c[0] {
      LexTransitive(a[1..], b[1..], c[1..]);
    }
  }

  function Codes(s: string): (r: seq<int>)
    ensures |r| == |s|
    ensures forall i :: 0 <= i < |s| ==> r[i] == s[i] as int
  {
    seq(|s|, i requires 0 <= i < |s| => s[i] as int)
  }

  predicate NameLeq(a: string, b: string) {
    LexLeq(Codes(a), Codes(b))
  }

  /** The first text ends where the two part, or goes on there with a smaller character. */
  ghost predicate TextBelow(a: string, b: string) {
    exists k :: 0 <= k <= |a| && k < |b| && PartAt(a, b, k)
  }

  ghost predicate PartAt(a: string, b: string, k: nat)
    requires k <= |a| && k < |b|
  {
    a[..k] == b[..k] && (k == |a| || a[k] < b[k])
  }

  /** Names are ordered as a dictionary orders them, character by character. */
  lemma {:induction false} NameLeqIff(a: string, b: string)
    ensures NameLeq(a, b) <==> a == b || TextBelow(a, b)
    decreases |a|
  {
    if a != [] && b != [] {
      assert Codes(a)[1..] == Codes(a[1..]) && Codes(b)[1..] == Codes(b[1..]);
      assert a == [a[0]] + a[1..] && b == [b[0]] + b[1..];
      NameLeqIff(a[1..], b[1..]);
      BelowStep(a, b);
      hide TextBelow;
    } else if a == [] && b != [] {
      assert PartAt(a, b, 0);
    }
  }

  lemma BelowStep(a: string, b: string)
    requires a != [] && b != []
    ensures TextBelow(a, b) <==> a[0] < b[0] || (a[0] == b[0] && TextBelow(a[1..], b[1..]))
  {
    if a[0] < b[0] {
      assert PartAt(a, b, 0);
    } else if a[0] == b[0] && TextBelow(a[1..], b[1..]) {
      var k :| 0 <= k <= |a[1..]| && k < |b[1..]| && PartAt(a[1..], b[1..], k);
      assert a[..k + 1] == [a[0]] + a[1..][..k] && b[..k + 1] == [b[0]] + b[1..][..k];
      assert PartAt(a, b, k + 1);
    } else if TextBelow(a, b) {
      var k :| 0 <= k <= |a| && k < |b| && PartAt(a, b, k);
      if k > 0 {
        assert a[..k][0] == b[..k][0] && a[1..][..k - 1] == a[..k][1..] && b[1..][..k - 1] == b[..k][1..];
        assert PartAt(a[1..], b[1..], k - 1);
      }
    }
  }

  lemma NameOrder()
    ensures TotalPreorder(NameLeq)
    ensures forall a, b :: NameLeq(a, b) && NameLeq(b, a) ==> a == b
  {
    forall x, y
      ensures NameLeq(x, y) || NameLeq(y, x)
      ensures NameLeq(x, y) && NameLeq(y, x) ==> x == y
    {
      LexTotal(Codes(x), Codes(y));
      if NameLeq(x, y) && NameLeq(y, x) {
        assert |x| == |y|;
        assert forall i :: 0 <= i < |x| ==> Codes(x)[i] == Codes(y)[i];
      }
    }
    forall x, y, z | NameLeq(x, y) && NameLeq(y, z) ensures NameLeq(x, z) {
      LexTransitive(Codes(x), Codes(y), Codes(z));
    }
  }
}

/** Sequences without repetition. */
module Distinctness {

  ghost predicate Distinct<T>(s: seq<T>) {
    forall i, j :: 0 <= i < j < |s| ==> s[i] != s[j]
  }

  lemma DistinctConcat<T>(a: seq<T>, b: seq<T>)
    requires Distinct(a) && Distinct(b) && forall x :: x in a ==> x !in b
    ensures Distinct(a + b)
  {
    forall i, j | 0 <= i < j < |a + b| ensures (a + b)[i] != (a + b)[j] {
      if i < |a| <= j {
        assert a[i] in a && b[j - |a|] in b;
      }
    }
  }

  function Members<T>(s: seq<T>): set<T> {
    set x | x in s
  }

  lemma MembersGrow<T>(s: seq<T>, k: nat)
    requires k < |s|
    ensures Members(s[..k + 1]) == Members(s[..k]) + {s[k]}
  {
  }

  lemma {:induction false} DistinctMultiset<T>(s: seq<T>)
    requires Distinct(s)
    ensures forall x :: multiset(s)[x] <= 1
  {
    if s != [] {
      DistinctMultiset(s[1..]);
      assert s == [s[0]] + s[1..];
      assert s[0] !in s[1..];
    }
  }

  /** The number of members equals the length exactly for a sequence without repetition. */
  lemma {:induction false} MemberCount<T>(s: seq<T>)
    ensures |Members(s)| <= |s|
    ensures |Members(s)| == |s| <==> Distinct(s)
  {
    if s != [] {
      var tail := s[1..];
      MemberCount(tail);
      assert s == [s[0]] + tail;
      if s[0] in tail {
        assert Members(s) == Members(tail);
        var k :| 0 <= k < |tail| && tail[k] == s[0];
        assert s[0] == s[k + 1];
      } else {
        assert Members(s) == Members(tail) + {s[0]};
        if Distinct(tail) {
          assert Distinct(s);
        } else {
          var i, j :| 0 <= i < j < |tail| && tail[i] == tail[j];
          assert s[i + 1] == s[j + 1];
        }
      }
    }
  }

  /** The pigeonhole principle: a sequence longer than the set it draws from repeats itself. */
  lemma Pigeonhole<T>(s: seq<T>, bound: set<T>) returns (i: nat, j: nat)
    requires |s| > |bound|
    requires forall x :: x in s ==> x in bound
    ensures i < j < |s| && s[i] == s[j]
  {
    MemberCount(s);
    assert Members(s) <= bound;
    SubsetCount(Members(s), bound);
    i, j :| 0 <= i < j < |s| && s[i] == s[j];
  }

  lemma SubsetCount<T>(a: set<T>, b: set<T>)
    requires a <= b
    ensures |a| <= |b|
    ensures |a| == |b| ==> a == b
  {
    assert b == a + (b - a);
  }
}

/** Sequences of sequences. */
module Sequences {
  ghost function Flat<T>(parts: seq<seq<T>>): seq<T> {
    if parts == [] then [] else parts[0] + Flat(parts[1..])
  }

  lemma Regroup<T>(a: seq<T>, b: seq<T>, c: seq<T>, d: seq<T>)
    ensures ((a + b) + c) + d == a + (b + (c + d))
  {
  }

  lemma DropConcat<T>(a: seq<T>, b: seq<T>, n: nat)
    requires n <= |a|
    ensures (a + b)[n..] == a[n..] + b
  {
  }

  lemma {:induction false} FlatAppend<T>(parts: seq<seq<T>>, last: seq<T>)
    ensures Flat(parts + [last]) == Flat(parts) + last
  {
    if parts == [] {
      assert parts + [last] == [last] && Flat([last]) == last + Flat([]);
    } else {
      FlatAppend(parts[1..], last);
      assert (parts + [last])[1..] == parts[1..] + [last];
    }
  }
}

/** Splitting, joining and trimming text. */
module Texts {
  /** The text between separators. */
  function Split(text: string, sep: char): (parts: seq<string>)
    ensures |parts| >= 1
    ensures forall part <- parts :: sep !in part
  {
    if text == "" then [""]
    else if text[0] == sep then [""] + Split(text[1..], sep)
    else
      var rest := Split(text[1..], sep);
      assert rest[0] in rest;
      [[text[0]] + rest[0]] + rest[1..]
  }

  function Join(parts: seq<string>, sep: char): string {
    if parts == [] then ""
    else if |parts| == 1 then parts[0]
    else parts[0] + [sep] + Join(parts[1..], sep)
  }

  lemma {:induction false} SplitAfter(part: string, rest: string, sep: char)
    requires sep !in part
    ensures Split(part, sep) == [part] && Split(part + [sep] + rest, sep) == [part] + Split(rest, sep)
  {
    if part == "" {
      assert part + [sep] + rest == [sep] + rest && ([sep] + rest)[1..] == rest;
    } else {
      assert part == [part[0]] + part[1..];
      SplitAfter(part[1..], rest, sep);
      assert (part + [sep] + rest)[1..] == part[1..] + [sep] + rest;
    }
  }

  /** Parts free of the separator, joined by it, come apart as the same parts. */
  lemma {:induction false} SplitJoin(parts: seq<string>, sep: char)
    requires parts != [] && forall part <- parts :: sep !in part
    ensures Split(Join(parts, sep), sep) == parts
  {
    assert parts[0] in parts && forall part <- parts[1..] :: part in parts;
    if |parts| == 1 {
      SplitAfter(parts[0], "", sep);
    } else {
      SplitJoin(parts[1..], sep);
      SplitAfter(parts[0], Join(parts[1..], sep), sep);
      assert parts == [parts[0]] + parts[1..];
    }
  }

  predicate IsSpace(c: char) {
    c == ' ' || '\t' <= c <= '\r'
  }

  function TrimStart(s: string): string {
    if s != "" && IsSpace(s[0]) then TrimStart(s[1..]) else s
  }

  function TrimEnd(s: string): string {
    if s != "" && IsSpace(s[|s| - 1]) then TrimEnd(s[..|s| - 1]) else s
  }

  function Trim(s: string): string {
    TrimEnd(TrimStart(s))
  }

  ghost predicate AllSpace(s: string) {
    forall i :: 0 <= i < |s| ==> s[i] as int == 32 || 9 <= s[i] as int <= 13
  }

  /** Trimming takes away all the whitespace at either end, and nothing else. */
  lemma TrimmedFrom(s: string) returns (pre: string, post: string)
    ensures AllSpace(pre) && AllSpace(post) && s == pre + Trim(s) + post && Trimmed(Trim(s))
  {
    pre := StartOf(s);
    post := EndOf(TrimStart(s));
    TrimEndKeepsStart(TrimStart(s));
  }

  lemma {:induction false} StartOf(s: string) returns (pre: string)
    ensures AllSpace(pre) && s == pre + TrimStart(s) && (TrimStart(s) != "" ==> !IsSpace(TrimStart(s)[0]))
  {
    if s != "" && IsSpace(s[0]) {
      var rest := StartOf(s[1..]);
      pre := [s[0]] + rest;
    } else {
      pre := "";
    }
  }

  lemma {:induction false} EndOf(s: string) returns (post: string)
    ensures AllSpace(post) && s == TrimEnd(s) + post
    ensures TrimEnd(s) != "" ==> !IsSpace(TrimEnd(s)[|TrimEnd(s)| - 1])
  {
    if s != "" && IsSpace(s[|s| - 1]) {
      var rest := EndOf(s[..|s| - 1]);
      post := rest + [s[|s| - 1]];
    } else {
      post := "";
    }
  }

  lemma {:induction false} TrimEndKeepsStart(s: string)
    ensures TrimEnd(s) <= s
  {
    if s != "" && IsSpace(s[|s| - 1]) {
      TrimEndKeepsStart(s[..|s| - 1]);
    }
  }

  /** Text with nothing to trim comes out from between any whitespace. */
  lemma {:induction false} TrimPadded(pre: string, core: string, post: string)
    requires AllSpace(pre) && AllSpace(post) && core != "" && Trimmed(core)
    ensures Trim(pre + core + post) == core
    decreases |pre| + |post|
  {
    var s := pre + core + post;
    if pre != "" {
      assert s[0] == pre[0] && s[1..] == pre[1..] + core + post;
      TrimPadded(pre[1..], core, post);
    } else {
      assert s == core + post && s[0] == core[0];
      TrimEndPadded(core, post);
    }
  }

  lemma {:induction false} TrimEndPadded(core: string, post: string)
    requires AllSpace(post) && core != "" && Trimmed(core)
    ensures TrimEnd(core + post) == core
  {
    var s := core + post;
    if post != "" {
      var last := |post| - 1;
      assert s[|s| - 1] == post[last] && s[..|s| - 1] == core + post[..last];
      TrimEndPadded(core, post[..last]);
    } else {
      assert s == core;
    }
  }

  /** Nothing to trim at either end. */
  predicate Trimmed(s: string) {
    s != "" ==> !IsSpace(s[0]) && !IsSpace(s[|s| - 1])
  }

  lemma TrimKeeps(s: string)
    requires Trimmed(s)
    ensures Trim(s) == s && Trim(" " + s) == s
  {
    assert (" " + s)[1..] == s;
  }
}
