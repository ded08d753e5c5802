/** Python's list slices, and the smaller and larger of two numbers. */
module Lists {
  import opened Outcomes

  function Min(a: int, b: int): int {
    if a < b then a else b
  }

  function Max(a: int, b: int): int {
    if a < b then b else a
  }

  /** `s[:n]` for a count */
  function Take<T>(s: seq<T>, n: nat): seq<T> {
    if n < |s| then s[..n] else s
  }

  /** `s[n:]` for a count */
  function Drop<T>(s: seq<T>, n: nat): seq<T> {
    if n < |s| then s[n..] else []
  }

  /** `s[:limit]`, where a negative limit counts from the end */
  function Slice<T>(s: seq<T>, limit: Option<int>): seq<T> {
    match limit
    case None => s
    case Some(n) => if n >= 0 then Take(s, n) else if |s| + n > 0 then s[..|s| + n] else []
  }

  lemma SlicePrefix<T>(s: seq<T>, limit: Option<int>)
    ensures Slice(s, limit) <= s
    ensures forall k :: 0 <= k < |Slice(s, limit)| ==> Slice(s, limit)[k] in s
  {
    assert Slice(s, limit) <= s;
  }
}
