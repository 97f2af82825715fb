/** Small vocabulary shared by the other modules. */
module Prelude {

  datatype Option<+T> = None | Some(value: T)

  function Lookup<K, V>(m: map<K, V>, k: K): Option<V> {
    if k in m then Some(m[k]) else None
  }

  /** The suffix test written out in the scan loops as `size() >= n && compare(size() - n, n, suffix) == 0`. */
  predicate EndsWith(s: string, suffix: string) {
    |s| >= |suffix| && s[|s| - |suffix|..] == suffix
  }

  /** The part of a string that `c_str()` shows to a reader that stops at the first NUL. */
  function CString(s: string): string {
    if s == "" || s[0] == '\0' then "" else [s[0]] + CString(s[1..])
  }

  predicate NulFree(s: string) { '\0' !in s }

  lemma {:induction false} CStringFacts(s: string)
    ensures NulFree(CString(s)) && CString(s) <= s
    ensures CString(s) == s <==> NulFree(s)
  {
    if s != "" && s[0] != '\0' {
      CStringFacts(s[1..]);
      assert s == [s[0]] + s[1..];
    }
  }

  /** Truncation of a concatenation: a NUL in the first part hides all of the second. */
  lemma {:induction false} CStringConcat(s: string, t: string)
    ensures CString(s + t) == if NulFree(s) then s + CString(t) else CString(s)
  {
    if s == "" {
      assert s + t == t;
    } else if s[0] != '\0' {
      CStringConcat(s[1..], t);
      assert (s + t)[1..] == s[1..] + t;
      assert s == [s[0]] + s[1..];
    }
  }

  lemma SubsetSize<T>(a: set<T>, b: set<T>)
    requires a <= b
    ensures |a| <= |b|
    ensures a != b ==> |a| < |b|
  {
    assert b == a + (b - a);
    assert a != b ==> b - a != {};
  }

  lemma Associative<T>(a: seq<T>, b: seq<T>, c: seq<T>)
    ensures a + (b + c) == (a + b) + c
  {
  }

  lemma PutCut<K, V>(m: map<K, V>, k: K, v: V)
    requires k !in m
    ensures m[k := v] - {k} == m
  {
  }
}
