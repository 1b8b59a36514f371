/** Failure-carrying values and small facts about sequences shared by every module. */
module Common {
  datatype Option<+T> = None | Some(value: T)

  datatype Result<+T, +E> = Ok(value: T) | Err(error: E)

  type Error = string

  /** The elements of a list as a set, the meaning of `sets.NewString(list...)`. */
  function Elements<T>(s: seq<T>): set<T> {
    set x | x in s
  }

  /** `s` visits every element of `x` exactly once, in an unspecified order (a Go map iteration). */
  ghost predicate Enumerates<T(!new)>(s: seq<T>, x: set<T>) {
    && (forall i, j :: 0 <= i < j < |s| ==> s[i] != s[j])
    && Elements(s) == x
  }

  lemma EnumerationExists(x: set<string>) returns (s: seq<string>)
    ensures Enumerates(s, x)
    decreases x
  {
    if x == {} {
      s := [];
    } else {
      var e :| e in x;
      var rest := EnumerationExists(x - {e});
      s := [e] + rest;
      assert Elements(s) == {e} + Elements(rest);
      assert forall y | y in rest :: y in Elements(rest);
    }
  }
}
