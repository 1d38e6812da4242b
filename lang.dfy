/**
 * The few pieces of the Java runtime that the modelled code depends on:
 * references that may be null, exceptions that escape a call, and
 * `String.trim`, which decides what counts as a blank question or
 * conversation id.
 */
module Lang {

  /** A Java reference that may be null. */
  datatype Option<+T> = None | Some(value: T)

  /** The exceptions that can escape the modelled operations. */
  datatype Exception =
    | NullPointerException
    | RuntimeException(message: string)
    /** A database constraint (the unique user name, a not-null column) refused a row. */
    | DataIntegrityViolation

  /** A Java call either returns a value or throws. */
  datatype Outcome<+T> = Returned(value: T) | Thrown(exception: Exception)

  /** `String.trim` strips every char whose code is at most U+0020 from both ends. */
  predicate IsTrimmable(c: char) {
    c <= ' '
  }

  /** Strips the longest prefix of trimmable chars. */
  function TrimLeading(s: string): (r: string)
    ensures |r| <= |s| && r == s[|s| - |r|..]
    ensures r == [] || !IsTrimmable(r[0])
    ensures forall i :: 0 <= i < |s| - |r| ==> IsTrimmable(s[i])
  {
    if s != [] && IsTrimmable(s[0]) then
      var r := TrimLeading(s[1..]);
      assert s[1..][|s| - 1 - |r|..] == s[|s| - |r|..];
      assert forall i :: 1 <= i < |s| - |r| ==> s[i] == s[1..][i - 1];
      r
    else s
  }

  /** Strips the longest suffix of trimmable chars. */
  function TrimTrailing(s: string): (r: string)
    ensures |r| <= |s| && r == s[..|r|]
    ensures r == [] || !IsTrimmable(r[|r| - 1])
    ensures forall i :: |r| <= i < |s| ==> IsTrimmable(s[i])
  {
    if s != [] && IsTrimmable(s[|s| - 1]) then
      var r := TrimTrailing(s[..|s| - 1]);
      assert s[..|s| - 1][..|r|] == s[..|r|];
      assert forall i :: |r| <= i < |s| - 1 ==> s[i] == s[..|s| - 1][i];
      r
    else s
  }

  /**
   * Java's `String.trim`: the part of `s` between a trimmable prefix and a
   * trimmable suffix that neither starts nor ends with a trimmable char.
   * It is empty exactly when every char of `s` is trimmable.
   */
  function Trim(s: string): (r: string)
    ensures var k := |s| - |TrimLeading(s)|; k + |r| <= |s| && r == s[k..k + |r|]
    ensures r != [] ==> !IsTrimmable(r[0]) && !IsTrimmable(r[|r| - 1])
    ensures forall i :: 0 <= i < |s| - |TrimLeading(s)| ==> IsTrimmable(s[i])
    ensures forall i :: |s| - |TrimLeading(s)| + |r| <= i < |s| ==> IsTrimmable(s[i])
    ensures r == [] <==> forall i :: 0 <= i < |s| ==> IsTrimmable(s[i])
  {
    var lead := TrimLeading(s);
    var r := TrimTrailing(lead);
    assert r == s[|s| - |lead|..|s| - |lead| + |r|];
    r
  }

  /** `s == null || s.trim().isEmpty()`. */
  predicate IsNullOrBlank(s: Option<string>) {
    s.None? || Trim(s.value) == []
  }

  /**
   * Some string is outside any finite set of strings: the source of the
   * fresh identifiers that `UUID.randomUUID()` stands for.
   */
  lemma {:induction false} LongerThanAll(used: set<string>) returns (n: nat)
    ensures forall s :: s in used ==> |s| < n
    decreases |used|
  {
    if used == {} {
      n := 0;
    } else {
      var x :| x in used;
      var m := LongerThanAll(used - {x});
      n := if m > |x| then m else |x| + 1;
    }
  }
}
