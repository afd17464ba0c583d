/** What the intrusive lists of server/gluethread/glthread.c do to the sequence of their elements. */
module Lists {
  ghost predicate Distinct<T>(s: seq<T>)
  {
    forall i, j | 0 <= i < j < |s| :: s[i] != s[j]
  }

  function IndexOf<T(==)>(s: seq<T>, x: T): (k: nat)
    requires x in s
    ensures k < |s| && s[k] == x
    ensures forall j | 0 <= j < k :: s[j] != x
  {
    if s[0] == x then 0 else 1 + IndexOf(s[1..], x)
  }

  function Cut<T>(s: seq<T>, k: nat): (r: seq<T>)
    requires k < |s|
    ensures |r| == |s| - 1
  {
    s[..k] + s[k + 1..]
  }

  lemma CutAt<T>(s: seq<T>, k: nat, a: nat)
    requires k < |s| && a < |s| - 1
    ensures Cut(s, k)[a] == s[if a < k then a else a + 1]
  {
  }

  lemma CutHas<T>(s: seq<T>, k: nat, x: T)
    requires k < |s| && x in s && x != s[k]
    ensures x in Cut(s, k)
  {
  }

  function Put<T>(s: seq<T>, p: nat, x: T): (r: seq<T>)
    requires p <= |s|
    ensures |r| == |s| + 1 && r[p] == x
  {
    s[..p] + [x] + s[p..]
  }

  lemma PutAt<T>(s: seq<T>, p: nat, x: T, a: nat)
    requires p <= |s| && a <= |s|
    ensures Put(s, p, x)[a] == if a < p then s[a] else if a == p then x else s[a - 1]
  {
  }

  lemma PutHas<T>(s: seq<T>, p: nat, x: T, y: T)
    requires p <= |s| && y in s
    ensures y in Put(s, p, x)
  {
  }

  lemma PutDistinct<T>(c: seq<T>, k: nat, nb: T)
    requires Distinct(c) && nb !in c && k <= |c|
    ensures Distinct(Put(c, k, nb))
  {
  }

  lemma CutDistinct<T>(c: seq<T>, k: nat)
    requires Distinct(c) && k < |c|
    ensures Distinct(Cut(c, k)) && c[k] !in Cut(c, k)
  {
  }

  /** remove_glthread on a list that holds x at most once. */
  function Without<T(==)>(s: seq<T>, x: T): seq<T>
  {
    if x in s then Cut(s, IndexOf(s, x)) else s
  }
}
