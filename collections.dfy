/** Small facts about collections shared by the sinks. */
module Collections {
  /** The set of images of the elements of a sequence, built one appended
      element at a time, as a loop that adds each image to a set does. */
  function Image<T, U>(s: seq<T>, f: T -> U): set<U>
    decreases |s|
  {
    if s == [] then {} else Image(s[..|s| - 1], f) + {f(s[|s| - 1])}
  }

  /** An image belongs to the set exactly when some element maps to it. */
  lemma {:induction false} ImageMembers<T, U>(s: seq<T>, f: T -> U, y: U)
    ensures y in Image(s, f) <==> exists i :: 0 <= i < |s| && f(s[i]) == y
    decreases |s|
  {
    if s != [] {
      var n := |s| - 1;
      ImageMembers(s[..n], f, y);
      if y in Image(s[..n], f) {
        var i :| 0 <= i < n && f(s[..n][i]) == y;
        assert s[i] == s[..n][i];
      }
      forall i | 0 <= i < n ensures s[..n][i] == s[i] {
      }
    }
  }

  /** Taking one more element adds exactly its image. */
  lemma ImageStep<T, U>(s: seq<T>, f: T -> U, i: nat)
    requires i < |s|
    ensures Image(s[..i + 1], f) == Image(s[..i], f) + {f(s[i])}
  {
    assert s[..i + 1][..i] == s[..i];
  }
}
