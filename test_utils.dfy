/** `test/utils/utils.go`: the helpers the test suites share. */
module TestUtils {

  /** `Contains`: scans `a` in order and stops at the first element equal to `x`. */
  method Contains(a: seq<string>, x: string) returns (found: bool)
    ensures found <==> x in a
  {
    var i := 0;
    while i < |a|
      invariant 0 <= i <= |a|
      invariant x !in a[..i]
    {
      if x == a[i] {
        return true;
      }
      i := i + 1;
    }
    assert a[..i] == a;
    return false;
  }

  /** The part of `*testing.T` that `Assert` touches: `t.Error` logs a line
      and marks the test failed. */
  class TestingT {
    var failed: bool
    var logs: seq<string>

    constructor ()
      ensures !failed && logs == []
    {
      failed := false;
      logs := [];
    }
  }

  /** `Assert`: compares with Go's `!=`; on a mismatch it reports through
      `t.Error(msg, fmt.Sprintf("expected : %v, got : %v", ...))`. `show`
      stands for `%v` formatting. */
  method Assert<T(==)>(t: TestingT, show: T -> string, expected: T, actual: T, msg: string)
    returns (ok: bool)
    modifies t
    ensures ok <==> expected == actual
    ensures t.failed == (old(t.failed) || !ok)
    ensures t.logs == if ok then old(t.logs)
                      else old(t.logs) + [msg + " " + "expected : " + show(expected) + ", got : " + show(actual)]
  {
    if expected != actual {
      t.logs := t.logs + [msg + " " + "expected : " + show(expected) + ", got : " + show(actual)];
      t.failed := true;
      return false;
    }
    return true;
  }
}
