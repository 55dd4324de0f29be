/** Shared vocabulary: nullable values, the service layer's exceptions as values,
    and sequence helpers used by several services. */
module Common {

  /** Kotlin's `T?`. */
  datatype Option<T> = None | Some(value: T)

  /** The exceptions the services throw, as values.
      NotFound stands for Exposed's `EntityNotFoundException` raised by `Dao[id]`,
      NotImplemented for Kotlin's `TODO()`. */
  datatype Error =
    | BadRequest
    | Forbidden
    | NotFound
    | NotUnique
    | InsufficientStock
    | NotImplemented
    | MalformedPayload

  datatype Result<T> = Ok(value: T) | Err(error: Error)

  /** `sub` is `s` with some elements dropped and the rest kept in order. */
  predicate IsSubsequence<T(==)>(sub: seq<T>, s: seq<T>)
    decreases |s|
  {
    if sub == [] then true
    else if s == [] then false
    else if sub[0] == s[0] then IsSubsequence(sub[1..], s[1..])
    else IsSubsequence(sub, s[1..])
  }

  /** Every element of a subsequence is an element of the sequence. */
  lemma {:induction false} SubsequenceElements<T>(sub: seq<T>, s: seq<T>)
    requires IsSubsequence(sub, s)
    ensures forall x :: x in sub ==> x in s
    decreases |s|
  {
    if sub != [] && s != [] {
      if sub[0] == s[0] {
        SubsequenceElements(sub[1..], s[1..]);
        assert forall x :: x in sub ==> x == sub[0] || x in sub[1..];
      } else {
        SubsequenceElements(sub, s[1..]);
      }
    }
  }

  /** A subsequence stays one when an element is appended to the sequence,
      whether or not the same element is appended to the subsequence. */
  lemma {:induction false} SubsequenceExtend<T>(sub: seq<T>, s: seq<T>, x: T)
    requires IsSubsequence(sub, s)
    ensures IsSubsequence(sub, s + [x]) && IsSubsequence(sub + [x], s + [x])
    decreases |s|
  {
    if s == [] {
      assert IsSubsequence([x][1..], [x][1..]);
      if sub != [] {
        assert false;
      }
    } else if sub == [] {
      SingletonAtEnd(s, x);
      assert sub + [x] == [x];
    } else if sub[0] == s[0] {
      SubsequenceExtend(sub[1..], s[1..], x);
      assert (s + [x])[1..] == s[1..] + [x];
      assert (sub + [x])[1..] == sub[1..] + [x];
    } else {
      SubsequenceExtend(sub, s[1..], x);
      assert (s + [x])[1..] == s[1..] + [x];
    }
  }

  lemma {:induction false} SingletonAtEnd<T>(s: seq<T>, x: T)
    ensures IsSubsequence([x], s + [x])
    decreases |s|
  {
    if s == [] {
      assert IsSubsequence([x][1..], [x][1..]);
    } else {
      assert (s + [x])[1..] == s[1..] + [x];
      SingletonAtEnd(s[1..], x);
      if s[0] == x {
        assert IsSubsequence([x][1..], (s + [x])[1..]);
      }
    }
  }
}
