/**
 * The Python string operations the assistant applies to a completion:
 * substring test (`in`), `str.replace`, `str.strip`, `str.upper` and
 * `str.startswith`. Characters are restricted to ASCII semantics for
 * `strip` and `upper`.
 */
module Text {

  /** `s.startswith(p)` */
  predicate IsPrefix(p: string, s: string)
  {
    |p| <= |s| && s[..|p|] == p
  }

  /** `sub in s` for strings: `sub` occurs somewhere in `s`. */
  predicate Contains(s: string, sub: string)
    ensures Contains(s, sub) ==> |sub| <= |s|
    decreases |s|
  {
    IsPrefix(sub, s) || (|s| > 0 && Contains(s[1..], sub))
  }

  /** Reference definition of a substring occurrence: at some index of `s`. */
  ghost predicate OccursAt(s: string, sub: string, i: int)
  {
    0 <= i <= |s| && IsPrefix(sub, s[i..])
  }

  /** The recursive scan agrees with "there is an index where `sub` occurs". */
  lemma {:induction false} ContainsIffOccurs(s: string, sub: string)
    ensures Contains(s, sub) <==> exists i :: OccursAt(s, sub, i)
    decreases |s|
  {
    if IsPrefix(sub, s) {
      assert s[0..] == s;
      assert OccursAt(s, sub, 0);
    } else if |s| == 0 {
      forall i | 0 <= i <= |s| ensures !OccursAt(s, sub, i) {
        assert s[i..] == s;
      }
    } else {
      ContainsIffOccurs(s[1..], sub);
      if Contains(s[1..], sub) {
        var i :| OccursAt(s[1..], sub, i);
        assert s[1..][i..] == s[i + 1..];
        assert OccursAt(s, sub, i + 1);
      } else {
        forall i | 0 <= i <= |s| ensures !OccursAt(s, sub, i) {
          if i == 0 {
            assert s[i..] == s;
          } else {
            assert s[1..][i - 1..] == s[i..];
            assert !OccursAt(s[1..], sub, i - 1);
          }
        }
      }
    }
  }

  /** A substring of a slice of `s` is a substring of `s`. */
  lemma ContainsInSlice(s: string, lo: nat, hi: nat, sub: string)
    requires lo <= hi <= |s|
    ensures Contains(s[lo..hi], sub) ==> Contains(s, sub)
  {
    if Contains(s[lo..hi], sub) {
      ContainsIffOccurs(s[lo..hi], sub);
      var i :| OccursAt(s[lo..hi], sub, i);
      assert s[lo..hi][i..][..|sub|] == s[lo + i..][..|sub|];
      assert OccursAt(s, sub, lo + i);
      ContainsIffOccurs(s, sub);
    }
  }

  /**
   * `s.replace(pat, rep)`: scans left to right and replaces every
   * non-overlapping occurrence of `pat`, resuming after each replaced one.
   */
  function ReplaceAll(s: string, pat: string, rep: string): (r: string)
    requires pat != ""
    ensures rep == "" ==> |r| <= |s|
    decreases |s|
  {
    if |s| < |pat| then s
    else if IsPrefix(pat, s) then rep + ReplaceAll(s[|pat|..], pat, rep)
    else [s[0]] + ReplaceAll(s[1..], pat, rep)
  }

  /** Replacing a pattern that does not occur leaves the text unchanged. */
  lemma {:induction false} ReplaceAllWithoutMatch(s: string, pat: string, rep: string)
    requires pat != ""
    requires !Contains(s, pat)
    ensures ReplaceAll(s, pat, rep) == s
    decreases |s|
  {
    if |s| >= |pat| {
      assert s[1..] + [] == s[1..];
      ReplaceAllWithoutMatch(s[1..], pat, rep);
      assert [s[0]] + s[1..] == s;
    }
  }

  /** Text shorter than a non-empty pattern cannot contain it. */
  lemma {:induction false} ShorterThanPattern(s: string, sub: string)
    requires |s| < |sub|
    ensures !Contains(s, sub)
    decreases |s|
  {
    if |s| > 0 {
      ShorterThanPattern(s[1..], sub);
    }
  }

  /** Text lacking one of the pattern's characters cannot contain the pattern. */
  lemma {:induction false} MissingCharNotContained(s: string, sub: string, j: nat)
    requires j < |sub| && sub[j] !in s
    ensures !Contains(s, sub)
    decreases |s|
  {
    if |s| >= |sub| {
      assert s[j] in s;
    }
    if |s| > 0 {
      assert forall c :: c in s[1..] ==> c in s;
      MissingCharNotContained(s[1..], sub, j);
    }
  }

  /** One step of the replace scan at a position where the pattern does not start. */
  lemma ReplaceAllStep(s: string, pat: string, rep: string)
    requires pat != "" && s != [] && !IsPrefix(pat, s)
    ensures ReplaceAll(s, pat, rep) == [s[0]] + ReplaceAll(s[1..], pat, rep)
  {
    if |s| < |pat| {
      assert [s[0]] + s[1..] == s;
    }
  }

  /** Text without the pattern's first character passes through a replace untouched. */
  lemma {:induction false} ReplaceAllSkipsPlainPrefix(a: string, b: string, pat: string, rep: string)
    requires pat != "" && pat[0] !in a
    ensures ReplaceAll(a + b, pat, rep) == a + ReplaceAll(b, pat, rep)
    decreases |a|
  {
    if a != [] {
      assert (a + b)[1..] == a[1..] + b;
      assert forall c :: c in a[1..] ==> c in a;
      ReplaceAllSkipsPlainPrefix(a[1..], b, pat, rep);
      assert a[0] in a;
      if |a + b| >= |pat| {
        assert (a + b)[..|pat|][0] == a[0] != pat[0];
        assert !IsPrefix(pat, a + b);
        calc {
          ReplaceAll(a + b, pat, rep);
          [a[0]] + ReplaceAll(a[1..] + b, pat, rep);
          [a[0]] + (a[1..] + ReplaceAll(b, pat, rep));
          { assert a == [a[0]] + a[1..]; }
          a + ReplaceAll(b, pat, rep);
        }
      } else {
        assert ReplaceAll(b, pat, rep) == b;
      }
    } else {
      assert a + b == b;
    }
  }

  /** The Markdown code-fence marker. */
  const Fence: string := "```"

  /** Putting one character in front of fence-free text creates a fence only from two leading backticks. */
  lemma ConsKeepsFenceFree(c: char, t: string)
    requires !Contains(t, Fence)
    requires c == '`' ==> !IsPrefix("``", t)
    ensures !Contains([c] + t, Fence)
    ensures c != '`' || !IsPrefix("`", t) ==> !IsPrefix("``", [c] + t)
    ensures c != '`' ==> !IsPrefix("`", [c] + t)
  {
    var r := [c] + t;
    assert r[1..] == t;
    assert r[0] == c;
    assert |r| >= 3 ==> r[..3] == [c] + t[..2];
    assert |r| >= 2 ==> r[..2] == [c] + t[..1];
  }

  /**
   * After `s.replace("```", "")` no fence is left, not even one formed by
   * backticks that were separated by a removed fence. The two prefix
   * clauses are the induction hypothesis that makes this go through.
   */
  lemma {:induction false} FenceRemovalShape(s: string)
    ensures !Contains(ReplaceAll(s, Fence, ""), Fence)
    ensures !IsPrefix("``", s) ==> !IsPrefix("``", ReplaceAll(s, Fence, ""))
    ensures !IsPrefix("`", s) ==> !IsPrefix("`", ReplaceAll(s, Fence, ""))
    decreases |s|
  {
    assert |Fence| == 3;
    if |s| < 3 {
      assert ReplaceAll(s, Fence, "") == s;
      ShorterThanPattern(s, Fence);
    } else if IsPrefix(Fence, s) {
      assert ReplaceAll(s, Fence, "") == ReplaceAll(s[3..], Fence, "");
      FenceRemovalShape(s[3..]);
      assert s[..3] == Fence;
      assert s[..2] == s[..3][..2] == "``";
      assert s[..1] == s[..3][..1] == "`";
    } else {
      var tail := s[1..];
      assert |tail| < |s|;
      ReplaceAllStep(s, Fence, "");
      FenceRemovalShape(tail);
      assert s[..3] == [s[0]] + tail[..2];
      assert s[..2] == [s[0]] + tail[..1];
      ConsKeepsFenceFree(s[0], ReplaceAll(tail, Fence, ""));
    }
  }

  /** `c.isspace()` restricted to ASCII: tab through carriage return, the four separators 0x1C-0x1F, and space. */
  predicate IsSpace(c: char)
  {
    c == ' ' || ('\t' <= c <= '\r') || ('\U{1C}' <= c <= '\U{1F}')
  }

  /** `s.lstrip()`: the suffix of `s` left after dropping leading whitespace. */
  function TrimStart(s: string): (r: string)
    ensures |r| <= |s| && r == s[|s| - |r|..]
    ensures forall k :: 0 <= k < |s| - |r| ==> IsSpace(s[k])
    ensures r == [] || !IsSpace(r[0])
    decreases |s|
  {
    if |s| > 0 && IsSpace(s[0]) then TrimStart(s[1..]) else s
  }

  /** `s.rstrip()`: the prefix of `s` left after dropping trailing whitespace. */
  function TrimEnd(s: string): (r: string)
    ensures |r| <= |s| && r == s[..|r|]
    ensures forall k :: |r| <= k < |s| ==> IsSpace(s[k])
    ensures r == [] || !IsSpace(r[|r| - 1])
    decreases |s|
  {
    if |s| > 0 && IsSpace(s[|s| - 1]) then TrimEnd(s[..|s| - 1]) else s
  }

  /**
   * `s.strip()`: the slice `s[lo..hi]` with only whitespace outside it and
   * no whitespace at either end of it.
   */
  function Strip(s: string): (r: string)
    ensures exists lo, hi ::
              && 0 <= lo <= hi <= |s| && r == s[lo..hi]
              && (forall k :: 0 <= k < lo ==> IsSpace(s[k]))
              && (forall k :: hi <= k < |s| ==> IsSpace(s[k]))
    ensures r == [] || (!IsSpace(r[0]) && !IsSpace(r[|r| - 1]))
  {
    var t := TrimStart(s);
    var r := TrimEnd(t);
    var lo := |s| - |t|;
    assert r == s[lo..lo + |r|];
    assert r != [] ==> r[0] == t[0];
    r
  }

  /** `c.upper()` on ASCII: lower-case letters map to upper-case, everything else is kept. */
  function UpperChar(c: char): (u: char)
  {
    if 'a' <= c <= 'z' then (c as int - 32) as char else c
  }

  /** `s.upper()`, character by character. */
  function Upper(s: string): (u: string)
  {
    seq(|s|, i requires 0 <= i < |s| => UpperChar(s[i]))
  }

  /** Text with no whitespace at either end is its own `strip()`. */
  lemma StripKeepsTrimmed(s: string)
    requires s == [] || (!IsSpace(s[0]) && !IsSpace(s[|s| - 1]))
    ensures Strip(s) == s
  {
    assert TrimStart(s) == s;
    assert TrimEnd(s) == s;
  }

  /** Stripping whitespace cannot create a substring that was not there. */
  lemma StripKeepsAbsence(s: string, sub: string)
    requires !Contains(s, sub)
    ensures !Contains(Strip(s), sub)
  {
    var lo, hi :| 0 <= lo <= hi <= |s| && Strip(s) == s[lo..hi];
    ContainsInSlice(s, lo, hi, sub);
  }
}
