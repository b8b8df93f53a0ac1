/** Insert-if-absent lists: the de-duplication discipline used by every setter
    of the tree (aliases, directives, allow and deny rules). */
module Lists {

  /** No element occurs twice. */
  ghost predicate NoDup<T>(s: seq<T>)
  {
    forall i, j :: 0 <= i < j < |s| ==> s[i] != s[j]
  }

  /** `if x not in s: s.append(x)`. */
  function AppendIfAbsent<T(==)>(s: seq<T>, x: T): (r: seq<T>)
    ensures x in r && forall i :: 0 <= i < |r| ==> r[i] in s || r[i] == x
    ensures |s| <= |r| <= |s| + 1 && r[..|s|] == s
    ensures |r| == |s| + 1 ==> r[|s|] == x
    ensures NoDup(s) ==> NoDup(r)
  {
    if x in s then s else s + [x]
  }

  /** Adding an element that is already present changes nothing; adding it twice
      is the same as adding it once. */
  lemma AppendIfAbsentPresent<T>(s: seq<T>, x: T)
    ensures x in s <==> AppendIfAbsent(s, x) == s
    ensures AppendIfAbsent(AppendIfAbsent(s, x), x) == AppendIfAbsent(s, x)
  {
  }

  /** The list obtained by offering every element of xs, in order. */
  function AppendAll<T(==)>(s: seq<T>, xs: seq<T>): seq<T>
    decreases |xs|
  {
    if xs == [] then s else AppendIfAbsent(AppendAll(s, xs[..|xs| - 1]), xs[|xs| - 1])
  }

  /** Offering a sequence of elements keeps the old list as a prefix, never creates
      a duplicate, and ends with exactly the elements offered or already there. */
  lemma {:induction false} AppendAllContents<T>(s: seq<T>, xs: seq<T>)
    requires NoDup(s)
    ensures NoDup(AppendAll(s, xs))
    ensures forall i :: 0 <= i < |xs| ==> xs[i] in AppendAll(s, xs)
    ensures forall i :: 0 <= i < |AppendAll(s, xs)| ==> AppendAll(s, xs)[i] in s || AppendAll(s, xs)[i] in xs
    ensures |s| <= |AppendAll(s, xs)| && AppendAll(s, xs)[..|s|] == s
    decreases |xs|
  {
    if xs != [] {
      var init := xs[..|xs| - 1];
      AppendAllContents(s, init);
      assert xs == init + [xs[|xs| - 1]];
      var r := AppendAll(s, init);
      assert AppendAll(s, xs) == AppendIfAbsent(r, xs[|xs| - 1]);
      assert AppendAll(s, xs)[..|r|] == r;
      assert AppendAll(s, xs)[..|s|] == r[..|s|];
    }
  }

  /** A duplicate-free list of length one: exactly one distinct value. */
  lemma {:induction false} NoDupSingleton<T>(s: seq<T>, a: T)
    requires NoDup(s) && a in s
    ensures |s| == 1 <==> forall i :: 0 <= i < |s| ==> s[i] == a
  {
    if |s| >= 2 {
      assert s[0] != s[1];
    }
  }

  /** Starting from the empty list, offering xs leaves exactly one element iff
      xs is non-empty and all its elements are equal (so ten additions of the
      same value store it once). */
  lemma {:induction false} OneDistinct<T>(xs: seq<T>)
    ensures |AppendAll([], xs)| == 1 <==> xs != [] && forall i :: 0 <= i < |xs| ==> xs[i] == xs[0]
  {
    AppendAllContents([], xs);
    var r := AppendAll([], xs);
    if xs != [] {
      assert xs[0] in r;
      NoDupSingleton(r, xs[0]);
      if |r| == 1 {
        forall i | 0 <= i < |xs| ensures xs[i] == xs[0] {
          assert xs[i] in r;
          assert r[0] == xs[0];
        }
      }
    } else {
      assert r == [];
    }
  }

  /** A prefix of a duplicate-free list is duplicate-free. */
  lemma NoDupPrefix<T>(s: seq<T>, n: nat)
    requires NoDup(s) && n <= |s|
    ensures NoDup(s[..n])
  {
    forall i, j | 0 <= i < j < n ensures s[..n][i] != s[..n][j] {
      assert s[..n][i] == s[i] && s[..n][j] == s[j];
    }
  }
}
