/** Character classes and string primitives with the meaning JavaScript gives them. */
module Text {

  /** The characters matched by `\s` in a JavaScript regular expression, which are also
      the ones `String.prototype.trim` removes. */
  predicate IsSpace(c: char) {
    var n := c as int;
    (9 <= n <= 13) || n == 32 || n == 0xA0 || n == 0x1680 || (0x2000 <= n <= 0x200A)
    || n == 0x2028 || n == 0x2029 || n == 0x202F || n == 0x205F || n == 0x3000 || n == 0xFEFF
  }

  /** `\d`: an ASCII decimal digit. */
  predicate IsDigit(c: char) {
    '0' <= c <= '9'
  }

  predicate AllDigits(s: string) {
    forall i :: 0 <= i < |s| ==> IsDigit(s[i])
  }

  predicate NoSpace(s: string) {
    forall i :: 0 <= i < |s| ==> !IsSpace(s[i])
  }

  /** ASCII case mapping (see README: other scripts are not modelled). */
  function LowerChar(c: char): char {
    if 'A' <= c <= 'Z' then (c as int + 32) as char else c
  }

  function UpperChar(c: char): char {
    if 'a' <= c <= 'z' then (c as int - 32) as char else c
  }

  function Lower(s: string): (r: string)
    ensures |r| == |s|
    ensures forall i :: 0 <= i < |s| ==> r[i] == LowerChar(s[i])
  {
    if |s| == 0 then "" else [LowerChar(s[0])] + Lower(s[1..])
  }

  function Upper(s: string): (r: string)
    ensures |r| == |s|
    ensures forall i :: 0 <= i < |s| ==> r[i] == UpperChar(s[i])
  {
    if |s| == 0 then "" else [UpperChar(s[0])] + Upper(s[1..])
  }

  /** Drops leading white space. */
  function TrimStart(s: string): (r: string)
    ensures |r| <= |s| && r == s[|s| - |r|..]
    ensures |r| > 0 ==> !IsSpace(r[0])
    ensures forall i :: 0 <= i < |s| - |r| ==> IsSpace(s[i])
  {
    if |s| > 0 && IsSpace(s[0]) then TrimStart(s[1..]) else s
  }

  /** Drops trailing white space. */
  function TrimEnd(s: string): (r: string)
    ensures |r| <= |s| && r == s[..|r|]
    ensures |r| > 0 ==> !IsSpace(r[|r| - 1])
    ensures forall i :: |r| <= i < |s| ==> IsSpace(s[i])
  {
    if |s| > 0 && IsSpace(s[|s| - 1]) then TrimEnd(s[..|s| - 1]) else s
  }

  /** `String.prototype.trim`: the longest slice of `s` with no white space at either edge. */
  function Trim(s: string): (r: string)
    ensures |r| <= |s|
    ensures |r| > 0 ==> !IsSpace(r[0]) && !IsSpace(r[|r| - 1])
    ensures var i := |s| - |TrimStart(s)|; i + |r| <= |s| && r == s[i..i + |r|]
    ensures r == "" <==> forall i :: 0 <= i < |s| ==> IsSpace(s[i])
  {
    var t := TrimStart(s);
    var r := TrimEnd(t);
    TrimSlice(s, t, r);
    TrimAllSpace(s, t, r);
    r
  }

  /** Every character of `s` from position `lo` up to, not including, `hi` is white space. */
  predicate SpaceBetween(s: string, lo: int, hi: int) {
    forall k :: lo <= k < hi && 0 <= k < |s| ==> IsSpace(s[k])
  }

  /** `trim` drops white space only: everything before and after the slice it keeps is
      white space, so with its contract the kept slice is exactly the longest one. */
  lemma TrimDropsOnlySpace(s: string)
    ensures var i := |s| - |TrimStart(s)|;
      SpaceBetween(s, 0, i) && SpaceBetween(s, i + |Trim(s)|, |s|)
  {
    var t := TrimStart(s);
    TrimDroppedSpace(s, t, TrimEnd(t));
  }

  /** What `TrimStart` drops is white space, and what `TrimEnd` then drops from `t` is the
      tail of `s`, so it is white space there too. */
  lemma TrimDroppedSpace(s: string, t: string, r: string)
    requires |t| <= |s| && t == s[|s| - |t|..] && forall k :: 0 <= k < |s| - |t| ==> IsSpace(s[k])
    requires |r| <= |t| && forall k :: |r| <= k < |t| ==> IsSpace(t[k])
    ensures var i := |s| - |t|; SpaceBetween(s, 0, i) && SpaceBetween(s, i + |r|, |s|)
  {
    var i := |s| - |t|;
    forall k | i + |r| <= k < |s| ensures IsSpace(s[k]) {
      assert s[k] == t[k - i];
    }
  }

  lemma TrimSlice(s: string, t: string, r: string)
    requires |t| <= |s| && t == s[|s| - |t|..]
    requires |r| <= |t| && r == t[..|r|]
    ensures r == s[|s| - |t|..|s| - |t| + |r|]
  {
  }

  lemma TrimAllSpace(s: string, t: string, r: string)
    requires t == TrimStart(s) && r == TrimEnd(t)
    ensures r == "" <==> forall i :: 0 <= i < |s| ==> IsSpace(s[i])
  {
    if r == "" {
      assert t == "";
    } else {
      assert |t| > 0;
      assert !IsSpace(t[0]);
      assert s[|s| - |t|] == t[0];
    }
  }

  /** `t` is a prefix of `s`. */
  predicate StartsWith(s: string, t: string) {
    |t| <= |s| && s[..|t|] == t
  }

  /** `s.includes(t)`: `t` occurs in `s` at some offset. */
  predicate Contains(s: string, t: string)
    decreases |s|
  {
    StartsWith(s, t) || (|s| > 0 && Contains(s[1..], t))
  }

  /** A case-insensitive containment test, as the database's `contains … insensitive` filter. */
  predicate ContainsIgnoreCase(s: string, t: string) {
    Contains(Lower(s), Lower(t))
  }

  function DigitChar(d: nat): (c: char)
    requires d < 10
    ensures IsDigit(c)
  {
    ('0' as int + d) as char
  }

  /** The decimal rendering of a number, as a template literal prints it. */
  function NatToDecimal(n: nat): (r: string)
    ensures |r| > 0 && AllDigits(r)
    decreases n
  {
    if n < 10 then [DigitChar(n)] else NatToDecimal(n / 10) + [DigitChar(n % 10)]
  }

  function IntToDecimal(n: int): (r: string)
    ensures |r| > 0
  {
    if n < 0 then "-" + NatToDecimal(-n) else NatToDecimal(n)
  }

  /** `Trim` leaves a string with no white space at all unchanged. */
  lemma TrimNoSpace(s: string)
    requires NoSpace(s)
    ensures Trim(s) == s
  {
    if |s| > 0 {
      assert !IsSpace(s[0]) && !IsSpace(s[|s| - 1]);
    }
  }

  /** The suffix left after dropping the leading characters that satisfy `p`. */
  function DropWhile(s: string, p: char -> bool): (r: string)
    ensures |r| <= |s| && r == s[|s| - |r|..]
    ensures |r| > 0 ==> !p(r[0])
    ensures forall i :: 0 <= i < |s| - |r| ==> p(s[i])
  {
    if |s| > 0 && p(s[0]) then
      var r := DropWhile(s[1..], p);
      assert forall i :: 1 <= i < |s| - |r| ==> s[i] == s[1..][i - 1];
      r
    else s
  }

  /** `s.replace(/R+/g, rep)` for a one-character class `R`: every maximal run of characters
      satisfying `inRun` becomes the single character `rep`. */
  function CollapseRuns(s: string, inRun: char -> bool, rep: char): (r: string)
    ensures |r| <= |s|
    ensures |s| > 0 ==> |r| > 0 && r[0] == (if inRun(s[0]) then rep else s[0])
    decreases |s|
  {
    if |s| == 0 then ""
    else if inRun(s[0]) then [rep] + CollapseRuns(DropWhile(s[1..], inRun), inRun, rep)
    else [s[0]] + CollapseRuns(s[1..], inRun, rep)
  }

  /** A single run character in front of a string that does not start a run becomes `rep`. */
  lemma CollapseLeadingRun(c: char, w: string, inRun: char -> bool, rep: char)
    requires inRun(c) && (|w| > 0 ==> !inRun(w[0]))
    ensures CollapseRuns([c] + w, inRun, rep) == [rep] + CollapseRuns(w, inRun, rep)
  {
    assert ([c] + w)[1..] == w;
    assert DropWhile(w, inRun) == w;
  }

  predicate All(s: string, ok: char -> bool) {
    forall i :: 0 <= i < |s| ==> ok(s[i])
  }

  /** No two adjacent characters both satisfy `p`. */
  predicate Separated(s: string, p: char -> bool) {
    forall i :: 0 <= i < |s| - 1 ==> !(p(s[i]) && p(s[i + 1]))
  }

  /** A property every kept character and `rep` have is had by every output character. */
  lemma {:induction false} CollapseRunsChars(s: string, inRun: char -> bool, rep: char, ok: char -> bool)
    requires ok(rep)
    requires forall i :: 0 <= i < |s| && !inRun(s[i]) ==> ok(s[i])
    ensures All(CollapseRuns(s, inRun, rep), ok)
    decreases |s|
  {
    if |s| > 0 {
      var k := if inRun(s[0]) then |s| - |DropWhile(s[1..], inRun)| else 1;
      var head := if inRun(s[0]) then rep else s[0];
      assert s[k..] == if inRun(s[0]) then DropWhile(s[1..], inRun) else s[1..];
      assert CollapseRuns(s, inRun, rep) == [head] + CollapseRuns(s[k..], inRun, rep);
      KeptCharsOfSuffix(s, k, inRun, ok);
      CollapseRunsChars(s[k..], inRun, rep, ok);
      AllCons(head, CollapseRuns(s[k..], inRun, rep), ok);
    }
  }

  lemma KeptCharsOfSuffix(s: string, k: nat, inRun: char -> bool, ok: char -> bool)
    requires k <= |s|
    requires forall i :: 0 <= i < |s| && !inRun(s[i]) ==> ok(s[i])
    ensures forall i :: 0 <= i < |s[k..]| && !inRun(s[k..][i]) ==> ok(s[k..][i])
  {
    assert forall i :: 0 <= i < |s[k..]| ==> s[k..][i] == s[k + i];
  }

  lemma AllCons(c: char, t: string, ok: char -> bool)
    requires ok(c) && All(t, ok)
    ensures All([c] + t, ok)
  {
    assert forall i :: 0 < i <= |t| ==> ([c] + t)[i] == t[i - 1];
  }

  /** When `rep` itself belongs to the runs, no two run characters end up adjacent. */
  lemma {:induction false} CollapseRunsSeparated(s: string, inRun: char -> bool, rep: char)
    requires inRun(rep)
    ensures Separated(CollapseRuns(s, inRun, rep), inRun)
    decreases |s|
  {
    if |s| > 0 {
      if inRun(s[0]) {
        var rest := DropWhile(s[1..], inRun);
        CollapseRunsSeparated(rest, inRun, rep);
        var t := CollapseRuns(rest, inRun, rep);
        var r := [rep] + t;
        assert CollapseRuns(s, inRun, rep) == r;
        if |t| > 0 {
          assert |rest| > 0 && !inRun(rest[0]) && t[0] == rest[0];
        }
        forall i | 0 <= i < |r| - 1 ensures !(inRun(r[i]) && inRun(r[i + 1])) {
          if i > 0 { assert r[i] == t[i - 1] && r[i + 1] == t[i]; }
        }
      } else {
        CollapseRunsSeparated(s[1..], inRun, rep);
        var t := CollapseRuns(s[1..], inRun, rep);
        var r := [s[0]] + t;
        assert CollapseRuns(s, inRun, rep) == r;
        forall i | 0 <= i < |r| - 1 ensures !(inRun(r[i]) && inRun(r[i + 1])) {
          if i > 0 { assert r[i] == t[i - 1] && r[i + 1] == t[i]; }
        }
      }
    }
  }

  /** Runs that are already single `rep` characters are left as they are. */
  lemma {:induction false} CollapseRunsIdentity(s: string, inRun: char -> bool, rep: char)
    requires forall i :: 0 <= i < |s| && inRun(s[i]) ==> s[i] == rep
    requires Separated(s, inRun)
    ensures CollapseRuns(s, inRun, rep) == s
    decreases |s|
  {
    if |s| > 0 {
      CollapseRunsIdentity(s[1..], inRun, rep);
      if inRun(s[0]) {
        assert |s| == 1 || !inRun(s[1]);
        assert DropWhile(s[1..], inRun) == s[1..];
      }
    }
  }
}
