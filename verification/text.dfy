/** ECMAScript white space and line terminators (sections 12.2 and 12.3 of
    ECMA-262), and `String.prototype.trim`, which removes them from both
    ends. `Number(s)` ignores the same characters around a numeric literal. */
module Text {

  /** ECMAScript white space and line terminators, the set `trim` removes. */
  predicate IsSpace(c: char) {
    var n := c as int;
    || n == 0x09 || n == 0x0A || n == 0x0B || n == 0x0C || n == 0x0D || n == 0x20
    || n == 0xA0 || n == 0x1680 || (0x2000 <= n <= 0x200A) || n == 0x2028 || n == 0x2029
    || n == 0x202F || n == 0x205F || n == 0x3000 || n == 0xFEFF
  }

  /** Leading white space removed: a suffix of `s` that starts with a
      non-space, or is empty. */
  function TrimStart(s: string): (r: string)
    ensures |r| <= |s| && forall i :: 0 <= i < |r| ==> r[i] == s[|s| - |r| + i]
    ensures forall i :: 0 <= i < |s| - |r| ==> IsSpace(s[i])
    ensures |r| > 0 ==> !IsSpace(r[0])
  {
    if |s| > 0 && IsSpace(s[0]) then
      var r := TrimStart(s[1..]);
      assert forall i :: 0 <= i < |r| ==> r[i] == s[|s| - |r| + i];
      r
    else s
  }

  /** Trailing white space removed: a prefix of `s` that ends with a
      non-space, or is empty. */
  function TrimEnd(s: string): (r: string)
    ensures |r| <= |s| && forall i :: 0 <= i < |r| ==> r[i] == s[i]
    ensures forall i :: |r| <= i < |s| ==> IsSpace(s[i])
    ensures |r| > 0 ==> !IsSpace(r[|r| - 1])
  {
    if |s| > 0 && IsSpace(s[|s| - 1]) then TrimEnd(s[..|s| - 1]) else s
  }

  /** `trim`: a slice of `s` with no white space at either end, empty exactly
      when `s` is all white space. */
  function Trim(s: string): (r: string)
    ensures r == "" <==> forall i :: 0 <= i < |s| ==> IsSpace(s[i])
    ensures |r| > 0 ==> !IsSpace(r[0]) && !IsSpace(r[|r| - 1])
  {
    var t := TrimStart(s);
    var r := TrimEnd(t);
    NonSpaceSurvives(t);
    assert (forall i :: 0 <= i < |s| ==> IsSpace(s[i])) ==> |t| == 0 by {
      if |t| > 0 {
        assert t[0] == s[|s| - |t|];
      }
    }
    r
  }

  /** A string that starts with a non-space keeps it when trailing white
      space is removed. */
  lemma {:induction false} NonSpaceSurvives(t: string)
    ensures |t| > 0 && !IsSpace(t[0]) ==> |TrimEnd(t)| > 0
  {
  }

  /** Trimming twice trims nothing more. */
  lemma {:induction false} TrimIdempotent(s: string)
    ensures Trim(Trim(s)) == Trim(s)
  {
    var r := Trim(s);
    assert TrimStart(r) == r;
  }

  /** Text with no white space at either end is left as it is. */
  lemma TrimKeeps(s: string)
    requires |s| > 0 ==> !IsSpace(s[0]) && !IsSpace(s[|s| - 1])
    ensures Trim(s) == s
  {
    assert TrimStart(s) == s;
  }

  /** White space before a text that starts with a non-space is dropped. */
  lemma {:induction false} TrimStartSkips(pre: string, x: string)
    requires forall i :: 0 <= i < |pre| ==> IsSpace(pre[i])
    requires |x| > 0 && !IsSpace(x[0])
    ensures TrimStart(pre + x) == x
  {
    if |pre| > 0 {
      assert (pre + x)[1..] == pre[1..] + x;
      TrimStartSkips(pre[1..], x);
    } else {
      assert pre + x == x;
    }
  }

  /** White space after a text that ends with a non-space is dropped. */
  lemma {:induction false} TrimEndSkips(x: string, post: string)
    requires forall i :: 0 <= i < |post| ==> IsSpace(post[i])
    requires |x| > 0 && !IsSpace(x[|x| - 1])
    ensures TrimEnd(x + post) == x
  {
    if |post| > 0 {
      var y := x + post;
      assert y[..|y| - 1] == x + post[..|post| - 1];
      TrimEndSkips(x, post[..|post| - 1]);
    } else {
      assert x + post == x;
    }
  }

  /** Trimming removes exactly the white space padding a text. */
  lemma TrimPadding(pre: string, x: string, post: string)
    requires forall i :: 0 <= i < |pre| ==> IsSpace(pre[i])
    requires forall i :: 0 <= i < |post| ==> IsSpace(post[i])
    requires |x| > 0 && !IsSpace(x[0]) && !IsSpace(x[|x| - 1])
    ensures Trim(pre + x + post) == x
  {
    assert pre + x + post == pre + (x + post);
    TrimStartSkips(pre, x + post);
    TrimEndSkips(x, post);
  }
}
