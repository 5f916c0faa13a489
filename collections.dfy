/**
 * The Ruby `Array` operations the scanner relies on: `select`/`keep_if`
 * (and `delete_if`, which keeps the complement), `compact` and `uniq`.
 * `Select` and `Compact` recurse on the last element, which is the shape
 * the left-to-right loops of `KeepIf` need.
 */
module Collections {
  import opened Wrappers

  /** `r` is obtained from `s` by deleting some elements, keeping the order of the rest. */
  ghost predicate IsSubsequence<T>(r: seq<T>, s: seq<T>)
    decreases |s|
  {
    r == [] ||
    (s != [] &&
     ((r[|r| - 1] == s[|s| - 1] && IsSubsequence(r[..|r| - 1], s[..|s| - 1])) ||
      IsSubsequence(r, s[..|s| - 1])))
  }

  predicate NoDuplicates<T(==)>(s: seq<T>) {
    forall i, j :: 0 <= i < j < |s| ==> s[i] != s[j]
  }

  lemma NoDuplicatesSnoc<T>(r: seq<T>, y: T)
    ensures NoDuplicates(r + [y]) <==> NoDuplicates(r) && y !in r
  {
    var s := r + [y];
    if NoDuplicates(s) {
      forall i, j | 0 <= i < j < |r| ensures r[i] != r[j] {
        assert r[i] == s[i] && r[j] == s[j];
      }
      forall i | 0 <= i < |r| ensures r[i] != y {
        assert r[i] == s[i] && y == s[|r|];
      }
    }
  }

  /** Index of the first occurrence of `x` in `s` (Ruby's `index`). */
  function IndexOf<T(==)>(s: seq<T>, x: T): (k: nat)
    requires x in s
    ensures k < |s| && s[k] == x
    ensures forall j :: 0 <= j < k ==> s[j] != x
  {
    if s[0] == x then 0 else 1 + IndexOf(s[1..], x)
  }

  /**
   * Every element of `r` occurs in `s`, and `r` lists them in the order of
   * their first occurrences in `s`.
   */
  predicate FirstOccurrenceOrder<T(==)>(r: seq<T>, s: seq<T>) {
    (forall i :: 0 <= i < |r| ==> r[i] in s) &&
    forall i, j :: 0 <= i < j < |r| ==> IndexOf(s, r[i]) < IndexOf(s, r[j])
  }

  /** The elements of `s` for which `p` holds, in their order in `s` (Ruby's `select`). */
  function Select<T>(s: seq<T>, p: T -> bool): seq<T>
    decreases |s|
  {
    if s == [] then []
    else
      var init := Select(s[..|s| - 1], p);
      var last := s[|s| - 1];
      if p(last) then init + [last] else init
  }

  /** `Select` keeps each element satisfying `p` as often as it occurs in `s`, and no other. */
  lemma {:induction false} SelectCounts<T>(s: seq<T>, p: T -> bool)
    ensures forall x :: multiset(Select(s, p))[x] == if p(x) then multiset(s)[x] else 0
    decreases |s|
  {
    if s != [] {
      var n := |s| - 1;
      SelectCounts(s[..n], p);
      assert s == s[..n] + [s[n]];
      assert multiset(s) == multiset(s[..n]) + multiset{s[n]};
    }
  }

  /** The elements of `Select(s, p)` are those of `s` satisfying `p`. */
  lemma SelectMembers<T>(s: seq<T>, p: T -> bool)
    ensures forall x :: x in Select(s, p) <==> x in s && p(x)
  {
    var r := Select(s, p);
    SelectCounts(s, p);
    forall x ensures x in r <==> x in s && p(x) {
      assert x in r <==> multiset(r)[x] > 0;
      assert x in s <==> multiset(s)[x] > 0;
    }
  }

  lemma {:induction false} SelectSubsequence<T>(s: seq<T>, p: T -> bool)
    ensures |Select(s, p)| <= |s|
    ensures IsSubsequence(Select(s, p), s)
    decreases |s|
  {
    if s != [] {
      var n := |s| - 1;
      SelectSubsequence(s[..n], p);
      assert s == s[..n] + [s[n]];
    }
  }

  /**
   * `Select` keeps exactly the elements satisfying `p`, each as often as it
   * occurs in `s`, in order; it is empty iff none satisfy `p`.
   */
  lemma SelectSpec<T>(s: seq<T>, p: T -> bool)
    ensures |Select(s, p)| <= |s|
    ensures forall x :: x in Select(s, p) <==> x in s && p(x)
    ensures forall x :: multiset(Select(s, p))[x] == if p(x) then multiset(s)[x] else 0
    ensures Select(s, p) == [] <==> forall i :: 0 <= i < |s| ==> !p(s[i])
    ensures IsSubsequence(Select(s, p), s)
  {
    var r := Select(s, p);
    SelectCounts(s, p);
    SelectSubsequence(s, p);
    SelectMembers(s, p);
    if r != [] {
      assert r[0] in r;
    }
  }

  /** `Select` keeps nothing when no element satisfies `p`. */
  lemma {:induction false} SelectNone<T>(s: seq<T>, p: T -> bool)
    requires forall i :: 0 <= i < |s| ==> !p(s[i])
    ensures Select(s, p) == []
    decreases |s|
  {
    if s != [] {
      var n := |s| - 1;
      assert forall i :: 0 <= i < n ==> s[..n][i] == s[i];
      SelectNone(s[..n], p);
    }
  }

  /** Some element satisfying `p` occurs twice in `s`. */
  predicate HasRepeatedMatch<T(==)>(s: seq<T>, p: T -> bool) {
    exists i, j :: 0 <= i < j < |s| && p(s[i]) && s[i] == s[j]
  }

  lemma RepeatedMatchSnoc<T>(s: seq<T>, p: T -> bool)
    requires s != []
    ensures var n := |s| - 1;
            HasRepeatedMatch(s, p) <==> HasRepeatedMatch(s[..n], p) || (p(s[n]) && s[n] in s[..n])
  {
    var n := |s| - 1;
    var init := s[..n];
    var last := s[n];
    if HasRepeatedMatch(init, p) {
      var i, j :| 0 <= i < j < n && p(init[i]) && init[i] == init[j];
      assert s[i] == init[i] && s[j] == init[j];
    }
    if p(last) && last in init {
      var i :| 0 <= i < n && init[i] == last;
      assert s[i] == init[i];
    }
    if HasRepeatedMatch(s, p) {
      var i, j :| 0 <= i < j < |s| && p(s[i]) && s[i] == s[j];
      assert s[i] == init[i];
      if j < n {
        assert s[j] == init[j];
      }
    }
  }

  /** `Select(s, p)` has a duplicate iff an element satisfying `p` occurs twice in `s`. */
  lemma {:induction false} SelectNoDuplicates<T>(s: seq<T>, p: T -> bool)
    ensures NoDuplicates(Select(s, p)) <==> !HasRepeatedMatch(s, p)
    decreases |s|
  {
    if s != [] {
      var n := |s| - 1;
      var init := s[..n];
      var last := s[n];
      SelectNoDuplicates(init, p);
      SelectMembers(init, p);
      RepeatedMatchSnoc(s, p);
      if p(last) {
        NoDuplicatesSnoc(Select(init, p), last);
      }
    }
  }

  /**
   * When `s` lists the images of `m` under `f`, an element satisfying `p`
   * occurs twice in `s` iff two positions of `m` have one image satisfying `p`.
   */
  lemma RepeatedMatchOfImages<A, B>(m: seq<A>, s: seq<B>, f: A -> B, p: B -> bool)
    requires |s| == |m| && forall i :: 0 <= i < |m| ==> s[i] == f(m[i])
    ensures HasRepeatedMatch(s, p) <==> exists i, j :: 0 <= i < j < |m| && p(f(m[i])) && f(m[i]) == f(m[j])
  {
    if HasRepeatedMatch(s, p) {
      var i, j :| 0 <= i < j < |s| && p(s[i]) && s[i] == s[j];
      assert p(f(m[i])) && f(m[i]) == f(m[j]);
    }
  }

  /** `Select` keeps everything when every element satisfies `p`. */
  lemma {:induction false} SelectAll<T>(s: seq<T>, p: T -> bool)
    requires forall i :: 0 <= i < |s| ==> p(s[i])
    ensures Select(s, p) == s
    decreases |s|
  {
    if s != [] {
      var n := |s| - 1;
      SelectAll(s[..n], p);
      assert s == s[..n] + [s[n]];
    }
  }

  /** The values of the present entries of `s`, in order (Ruby's `compact`). */
  function Compact<T>(s: seq<Option<T>>): seq<T>
    decreases |s|
  {
    if s == [] then []
    else
      var init := Compact(s[..|s| - 1]);
      var last := s[|s| - 1];
      if last.Some? then init + [last.value] else init
  }

  predicate IsPresent<T>(o: Option<T>) {
    o.Some?
  }

  /** The values in `Compact(s)` are those of the present entries of `s`. */
  lemma {:induction false} CompactMembers<T>(s: seq<Option<T>>)
    ensures forall x :: x in Compact(s) <==> Some(x) in s
    decreases |s|
  {
    if s != [] {
      var n := |s| - 1;
      CompactMembers(s[..n]);
      assert s == s[..n] + [s[n]];
    }
  }

  /**
   * `Compact` lists the values of the present entries of `s`, in order and
   * each as often as it occurs, and drops only the absent entries.
   */
  lemma {:induction false} CompactSpec<T>(s: seq<Option<T>>)
    ensures |Compact(s)| <= |s|
    ensures forall x :: x in Compact(s) <==> Some(x) in s
    ensures |Compact(s)| == |Select(s, IsPresent)|
    ensures forall i :: 0 <= i < |Compact(s)| ==> Select(s, IsPresent)[i] == Some(Compact(s)[i])
    ensures forall x :: multiset(Compact(s))[x] == multiset(s)[Some(x)]
    ensures None !in s ==> |Compact(s)| == |s|
    decreases |s|
  {
    if s != [] {
      var n := |s| - 1;
      CompactSpec(s[..n]);
      assert s == s[..n] + [s[n]];
      assert multiset(s) == multiset(s[..n]) + multiset{s[n]};
    }
  }

  /** First-occurrence deduplication of `s` when the elements of `seen` were met before. */
  function UniqFrom<T(==)>(s: seq<T>, seen: set<T>): seq<T>
    decreases |s|
  {
    if s == [] then []
    else if s[0] in seen then UniqFrom(s[1..], seen)
    else [s[0]] + UniqFrom(s[1..], seen + {s[0]})
  }

  lemma {:induction false} UniqFromMembers<T>(s: seq<T>, seen: set<T>)
    ensures forall x :: x in UniqFrom(s, seen) <==> x in s && x !in seen
    decreases |s|
  {
    if s != [] {
      if s[0] in seen {
        UniqFromMembers(s[1..], seen);
      } else {
        UniqFromMembers(s[1..], seen + {s[0]});
      }
      assert s == [s[0]] + s[1..];
    }
  }

  lemma {:induction false} UniqFromNoDuplicates<T>(s: seq<T>, seen: set<T>)
    ensures NoDuplicates(UniqFrom(s, seen))
    decreases |s|
  {
    if s != [] {
      if s[0] in seen {
        UniqFromNoDuplicates(s[1..], seen);
      } else {
        var t := UniqFrom(s[1..], seen + {s[0]});
        UniqFromNoDuplicates(s[1..], seen + {s[0]});
        UniqFromMembers(s[1..], seen + {s[0]});
        assert s[0] !in t;
        forall i, j | 0 <= i < j < |[s[0]] + t| ensures ([s[0]] + t)[i] != ([s[0]] + t)[j] {
          if i > 0 {
            assert ([s[0]] + t)[i] == t[i - 1];
          }
        }
      }
    }
  }

  lemma NoDuplicatesCons<T>(s: seq<T>)
    requires s != []
    ensures NoDuplicates(s) <==> s[0] !in s[1..] && NoDuplicates(s[1..])
  {
    if NoDuplicates(s) {
      forall i, j | 0 <= i < j < |s[1..]| ensures s[1..][i] != s[1..][j] {
        assert s[1..][i] == s[i + 1] && s[1..][j] == s[j + 1];
      }
    }
    if s[0] !in s[1..] && NoDuplicates(s[1..]) {
      forall i, j | 0 <= i < j < |s| ensures s[i] != s[j] {
        assert s[j] == s[1..][j - 1];
        if i > 0 {
          assert s[i] == s[1..][i - 1];
        }
      }
    }
  }

  lemma {:induction false} UniqFromLength<T>(s: seq<T>, seen: set<T>)
    ensures |UniqFrom(s, seen)| <= |s|
    ensures
      |UniqFrom(s, seen)| == |s| <==>
      NoDuplicates(s) && forall i :: 0 <= i < |s| ==> s[i] !in seen
    decreases |s|
  {
    if s != [] {
      NoDuplicatesCons(s);
      if s[0] in seen {
        UniqFromLength(s[1..], seen);
      } else {
        var seen' := seen + {s[0]};
        UniqFromLength(s[1..], seen');
        if NoDuplicates(s) && forall i :: 0 <= i < |s| ==> s[i] !in seen {
          forall i | 0 <= i < |s[1..]| ensures s[1..][i] !in seen' {
            assert s[1..][i] == s[i + 1];
          }
        }
        if |UniqFrom(s, seen)| == |s| {
          assert s[0] !in s[1..];
          forall i | 0 <= i < |s| ensures s[i] !in seen {
            if i > 0 {
              assert s[i] == s[1..][i - 1];
            }
          }
        }
      }
    }
  }

  lemma {:induction false} UniqFromIdentity<T>(s: seq<T>, seen: set<T>)
    requires NoDuplicates(s)
    requires forall i :: 0 <= i < |s| ==> s[i] !in seen
    ensures UniqFrom(s, seen) == s
    decreases |s|
  {
    if s != [] {
      NoDuplicatesCons(s);
      var seen' := seen + {s[0]};
      forall i | 0 <= i < |s[1..]| ensures s[1..][i] !in seen' {
        assert s[1..][i] == s[i + 1];
      }
      UniqFromIdentity(s[1..], seen');
      assert s == [s[0]] + s[1..];
    }
  }

  lemma IndexOfTail<T>(s: seq<T>, x: T)
    requires x in s && s[0] != x
    ensures x in s[1..] && IndexOf(s, x) == 1 + IndexOf(s[1..], x)
  {
    assert s == [s[0]] + s[1..];
  }

  lemma OrderDropHead<T>(r: seq<T>, s: seq<T>)
    requires s != [] && s[0] !in r
    requires FirstOccurrenceOrder(r, s[1..])
    ensures FirstOccurrenceOrder(r, s)
  {
    forall x | x in r ensures x in s && IndexOf(s, x) == 1 + IndexOf(s[1..], x) {
      IndexOfTail(s, x);
    }
    forall i, j | 0 <= i < j < |r| ensures IndexOf(s, r[i]) < IndexOf(s, r[j]) {
      assert r[i] in r && r[j] in r;
    }
  }

  lemma OrderConsHead<T>(r: seq<T>, s: seq<T>)
    requires s != [] && s[0] !in r
    requires FirstOccurrenceOrder(r, s)
    ensures FirstOccurrenceOrder([s[0]] + r, s)
  {
    var r' := [s[0]] + r;
    forall i, j | 0 <= i < j < |r'| ensures IndexOf(s, r'[i]) < IndexOf(s, r'[j]) {
      assert r'[j] == r[j - 1];
      if i > 0 {
        assert r'[i] == r[i - 1];
      }
    }
  }

  lemma {:induction false} UniqFromOrder<T>(s: seq<T>, seen: set<T>)
    ensures FirstOccurrenceOrder(UniqFrom(s, seen), s)
    decreases |s|
  {
    if s != [] {
      var seen' := if s[0] in seen then seen else seen + {s[0]};
      var t := UniqFrom(s[1..], seen');
      UniqFromOrder(s[1..], seen');
      UniqFromMembers(s[1..], seen');
      OrderDropHead(t, s);
      if s[0] !in seen {
        OrderConsHead(t, s);
      }
    }
  }

  /** Ruby's `uniq`: the first occurrence of each element of `s`, in order. */
  function Uniq<T(==)>(s: seq<T>): seq<T> {
    UniqFrom(s, {})
  }

  /**
   * `Uniq` has no duplicates and the elements of `s`, listed in the order of
   * their first occurrences in `s`; it shortens `s` iff `s` has a duplicate,
   * and leaves a duplicate-free `s` as it is.
   */
  lemma UniqSpec<T>(s: seq<T>)
    ensures NoDuplicates(Uniq(s))
    ensures forall x :: x in Uniq(s) <==> x in s
    ensures FirstOccurrenceOrder(Uniq(s), s)
    ensures |Uniq(s)| <= |s|
    ensures |Uniq(s)| == |s| <==> NoDuplicates(s)
    ensures NoDuplicates(s) ==> Uniq(s) == s
  {
    UniqFromMembers(s, {});
    UniqFromNoDuplicates(s, {});
    UniqFromOrder(s, {});
    UniqFromLength(s, {});
    if NoDuplicates(s) {
      UniqFromIdentity(s, {});
    }
  }

  /**
   * Ruby's in-place `keep_if`: compacts the elements of `a` that satisfy
   * `keep` into a prefix of `a`, in order, and returns that prefix's length
   * (the new size of the Ruby array). `delete_if { c }` is `keep_if { !c }`.
   */
  method KeepIf<T>(a: array<T>, keep: T -> bool) returns (n: nat)
    modifies a
    ensures n <= a.Length
    ensures a[..n] == Select(old(a[..]), keep)
  {
    ghost var s := a[..];
    n := 0;
    var i := 0;
    while i < a.Length
      invariant n <= i <= a.Length
      invariant a[..n] == Select(s[..i], keep)
      invariant forall k :: i <= k < a.Length ==> a[k] == s[k]
    {
      assert s[..i + 1][..i] == s[..i];
      ghost var kept := a[..n];
      var x := a[i];
      if keep(x) {
        a[n] := x;
        assert a[..n + 1] == kept + [x];
        n := n + 1;
      }
      i := i + 1;
    }
    assert s[..a.Length] == s;
  }
}
