/** Small shared vocabulary: optional values, error-or-value results,
    JavaScript truthiness of request fields, and sequence filtering. */
module Common {

  /** A value that may be absent (`null` / `undefined` in the source). */
  datatype Option<+T> = None | Some(value: T) {
    /** The value, or `default` when absent (the source's `x || default` on a nullable number). */
    function GetOr(default: T): T {
      match this
      case Some(v) => v
      case None => default
    }
  }

  /** Either the value a handler produces or the rejection it responds with. */
  datatype Result<+T, +E> = Success(value: T) | Failure(error: E)

  /** Identifier of a user account. */
  type UserId = string

  /** The authenticated caller as decoded from the token: `req.user`. */
  datatype Caller = Caller(id: UserId, role: string)

  /** JavaScript truthiness of an optional string field: absent and "" are falsy. */
  predicate Truthy(s: Option<string>) {
    s.Some? && s.value != ""
  }

  /** `r` is `s` with some elements left out: its elements appear in `s` in
      the same order (matched greedily from the left). */
  predicate IsSubsequence<T(==)>(r: seq<T>, s: seq<T>)
    decreases |s|
  {
    |r| == 0 || (|s| > 0 && if r[0] == s[0] then IsSubsequence(r[1..], s[1..]) else IsSubsequence(r, s[1..]))
  }

  /** The elements of `s` satisfying `p`, in their original order (`Array.filter`,
      or a `where` over rows the database lists in order): a subsequence of
      `s` holding each satisfying element exactly as often as `s` does. */
  function Filter<T(!new)>(s: seq<T>, p: T -> bool): (r: seq<T>)
    ensures |r| <= |s|
    ensures forall i :: 0 <= i < |r| ==> p(r[i])
    ensures forall x :: x in r <==> x in s && p(x)
    ensures IsSubsequence(r, s)
    ensures forall x :: multiset(r)[x] == if p(x) then multiset(s)[x] else 0
  {
    if |s| == 0 then []
    else
      var rest := Filter(s[1..], p);
      assert s == [s[0]] + s[1..];
      if p(s[0]) then
        assert ([s[0]] + rest)[1..] == rest;
        [s[0]] + rest
      else
        rest
  }

  /** Every element of a subsequence occurs in the sequence. */
  lemma {:induction false} SubsequenceMembers<T>(r: seq<T>, s: seq<T>)
    requires IsSubsequence(r, s)
    ensures forall x :: x in r ==> x in s
    decreases |s|
  {
    if |r| > 0 {
      if r[0] == s[0] {
        SubsequenceMembers(r[1..], s[1..]);
        assert r == [r[0]] + r[1..];
      } else {
        SubsequenceMembers(r, s[1..]);
      }
    }
  }

  /** A subsequence keeps every order its sequence is listed in: whatever
      relation holds between earlier and later elements of `s` holds between
      earlier and later elements of `r`. */
  lemma {:induction false} SubsequenceKeepsOrder<T>(r: seq<T>, s: seq<T>, before: (T, T) -> bool)
    requires IsSubsequence(r, s)
    requires forall i, j :: 0 <= i < j < |s| ==> before(s[i], s[j])
    ensures forall i, j :: 0 <= i < j < |r| ==> before(r[i], r[j])
    decreases |s|
  {
    if |r| > 0 {
      if r[0] == s[0] {
        SubsequenceKeepsOrder(r[1..], s[1..], before);
        SubsequenceMembers(r[1..], s[1..]);
        forall j | 0 < j < |r|
          ensures before(r[0], r[j])
        {
          assert r[j] == r[1..][j - 1];
          assert r[j] in r[1..];
          assert r[j] in s[1..];
          var k :| 0 <= k < |s[1..]| && s[1..][k] == r[j];
          assert s[k + 1] == r[j];
        }
        forall i, j | 0 < i < j < |r|
          ensures before(r[i], r[j])
        {
          assert r[i] == r[1..][i - 1] && r[j] == r[1..][j - 1];
        }
      } else {
        SubsequenceKeepsOrder(r, s[1..], before);
      }
    }
  }

  /** The status values of a reviewed request (a leave request or a password
      reset): created pending, then approved or rejected by management. */
  const Pending := "pending"
  const Approved := "approved"
  const Rejected := "rejected"

  /** A review's status is accepted only when it is approved or rejected. */
  predicate ValidReviewStatus(status: Option<string>) {
    status == Some(Approved) || status == Some(Rejected)
  }

  /** The first `n` elements of `s`, or all of them when there are fewer (`take: n`). */
  function Take<T>(s: seq<T>, n: nat): (r: seq<T>)
    ensures |r| == if n < |s| then n else |s|
    ensures r <= s
  {
    if n < |s| then s[..n] else s
  }
}
