/**
 * String helpers shared by the text loaders: Java's toUpperCase/toLowerCase on
 * ASCII letters, and Java's String.split("\\.") with its helpers for keys made of
 * dot-separated segments.
 */
module Strings {

  function LowerChar(c: char): char
  {
    if 'A' <= c <= 'Z' then (c as int + 32) as char else c
  }

  function UpperChar(c: char): char
  {
    if 'a' <= c <= 'z' then (c as int - 32) as char else c
  }

  /** String.toLowerCase, restricted to the ASCII letters. */
  function Lower(s: string): (r: string)
    ensures |r| == |s|
    ensures forall i :: 0 <= i < |s| ==> r[i] == LowerChar(s[i])
  {
    seq(|s|, i requires 0 <= i < |s| => LowerChar(s[i]))
  }

  /** String.toUpperCase, restricted to the ASCII letters. */
  function Upper(s: string): (r: string)
    ensures |r| == |s|
    ensures forall i :: 0 <= i < |s| ==> r[i] == UpperChar(s[i])
  {
    seq(|s|, i requires 0 <= i < |s| => UpperChar(s[i]))
  }

  predicate IsUpperCase(s: string)
  {
    Upper(s) == s
  }

  predicate IsLowerCase(s: string)
  {
    Lower(s) == s
  }

  lemma UpperIsUpperCase(s: string)
    ensures IsUpperCase(Upper(s))
  {
    assert Upper(Upper(s)) == Upper(s);
  }

  lemma LowerIsLowerCase(s: string)
    ensures IsLowerCase(Lower(s))
  {
    assert Lower(Lower(s)) == Lower(s);
  }

  /** Upper-casing first does not change what lower-casing yields. */
  lemma LowerOfUpper(s: string)
    ensures Lower(Upper(s)) == Lower(s)
  {
    assert forall i :: 0 <= i < |s| ==> Lower(Upper(s))[i] == Lower(s)[i];
  }

  lemma LowerConcat(a: string, b: string)
    ensures Lower(a + b) == Lower(a) + Lower(b)
  {
    assert forall i :: 0 <= i < |a + b| ==> Lower(a + b)[i] == (Lower(a) + Lower(b))[i];
  }

  predicate DotFree(s: string)
  {
    forall i :: 0 <= i < |s| ==> s[i] != '.'
  }

  /**
   * Splitting at every '.', keeping every (possibly empty) segment:
   * "a..b." gives ["a", "", "b", ""].
   */
  function RawSplit(s: string): (r: seq<string>)
    ensures |r| >= 1
  {
    if s == [] then [""]
    else
      var rest := RawSplit(s[1..]);
      if s[0] == '.' then [""] + rest
      else [[s[0]] + rest[0]] + rest[1..]
  }

  function StripTrailingEmpty(parts: seq<string>): (r: seq<string>)
    ensures |r| <= |parts|
    ensures r == parts[..|r|]
    ensures r != [] ==> r[|r| - 1] != ""
    ensures forall i :: |r| <= i < |parts| ==> parts[i] == ""
  {
    if parts != [] && parts[|parts| - 1] == "" then StripTrailingEmpty(parts[..|parts| - 1])
    else parts
  }

  /**
   * Java's s.split("\\."): when no '.' occurs the result is [s] itself (so "" gives
   * [""]); otherwise every segment is kept except the trailing empty ones (so "."
   * gives []).
   */
  function JavaSplit(s: string): seq<string>
  {
    if DotFree(s) then [s] else StripTrailingEmpty(RawSplit(s))
  }

  /** Joins segments with '.'; the inverse of RawSplit. */
  function Join(parts: seq<string>): string
  {
    if |parts| == 0 then ""
    else if |parts| == 1 then parts[0]
    else parts[0] + "." + Join(parts[1..])
  }

  /** A dotted key none of whose segments is empty: "a.b", but not "", ".a", "a..b" or "a.". */
  predicate NoEmptySegment(s: string)
  {
    forall i :: 0 <= i < |RawSplit(s)| ==> RawSplit(s)[i] != ""
  }

  /** b continues a after a dot: a == "x.y" and b == "x.y.z". */
  predicate DottedPrefix(a: string, b: string)
  {
    |b| > |a| && b[..|a|] == a && b[|a|] == '.'
  }

  predicate ProperPrefix<T(==)>(p: seq<T>, q: seq<T>)
  {
    |p| < |q| && q[..|p|] == p
  }

  lemma {:induction false} RawSplitSegmentsDotFree(s: string)
    ensures forall i :: 0 <= i < |RawSplit(s)| ==> DotFree(RawSplit(s)[i])
  {
    if s != [] {
      RawSplitSegmentsDotFree(s[1..]);
    }
  }

  lemma {:induction false} RawSplitOfDotFree(s: string)
    requires DotFree(s)
    ensures RawSplit(s) == [s]
  {
    if s != [] {
      assert DotFree(s[1..]) by {
        forall i | 0 <= i < |s[1..]| ensures s[1..][i] != '.' {
          assert s[1..][i] == s[i + 1];
        }
      }
      RawSplitOfDotFree(s[1..]);
      assert [s[0]] + s[1..] == s;
    }
  }

  lemma {:induction false} RawSplitCons(a: string, rest: string)
    requires DotFree(a)
    ensures RawSplit(a + "." + rest) == [a] + RawSplit(rest)
  {
    if a == [] {
      assert a + "." + rest == "." + rest;
      assert ("." + rest)[1..] == rest;
    } else {
      assert (a + "." + rest)[1..] == a[1..] + "." + rest;
      RawSplitCons(a[1..], rest);
      assert [a[0]] + a[1..] == a;
    }
  }

  lemma {:induction false} JoinRawSplit(s: string)
    ensures Join(RawSplit(s)) == s
  {
    if s != [] {
      JoinRawSplit(s[1..]);
      var rest := RawSplit(s[1..]);
      if s[0] == '.' {
        assert Join([""] + rest) == "" + "." + Join(rest) by {
          assert ([""] + rest)[1..] == rest;
        }
        assert s == "." + s[1..];
      } else {
        var r := [[s[0]] + rest[0]] + rest[1..];
        if |rest| == 1 {
          assert s == [s[0]] + s[1..];
        } else {
          assert r[1..] == rest[1..];
          assert Join(rest) == rest[0] + "." + Join(rest[1..]);
          assert s == [s[0]] + s[1..];
        }
      }
    }
  }

  /** Different keys have different segment lists. */
  lemma RawSplitInjective(a: string, b: string)
    requires RawSplit(a) == RawSplit(b)
    ensures a == b
  {
    JoinRawSplit(a);
    JoinRawSplit(b);
  }

  lemma {:induction false} RawSplitJoin(p: seq<string>)
    requires |p| >= 1
    requires forall i :: 0 <= i < |p| ==> DotFree(p[i])
    ensures RawSplit(Join(p)) == p
  {
    if |p| == 1 {
      RawSplitOfDotFree(p[0]);
    } else {
      RawSplitJoin(p[1..]);
      RawSplitCons(p[0], Join(p[1..]));
    }
  }

  lemma {:induction false} JoinAppend(p: seq<string>, q: seq<string>)
    requires |p| >= 1 && |q| >= 1
    ensures Join(p + q) == Join(p) + "." + Join(q)
  {
    if |p| == 1 {
      assert (p + q)[1..] == q;
    } else {
      assert (p + q)[1..] == p[1..] + q;
      JoinAppend(p[1..], q);
    }
  }

  lemma {:induction false} JoinNonEmpty(p: seq<string>)
    requires |p| >= 1 && p[0] != ""
    ensures Join(p) != ""
  {
  }

  /** With no empty segment, Java's split is the plain split at every dot. */
  lemma JavaSplitOfNoEmptySegment(s: string)
    requires NoEmptySegment(s)
    ensures JavaSplit(s) == RawSplit(s)
  {
    if DotFree(s) {
      RawSplitOfDotFree(s);
    }
  }

  /** If the segments of a are a proper prefix of those of b, then b is a dotted continuation of a. */
  lemma SegmentPrefixIsDottedPrefix(a: string, b: string)
    ensures ProperPrefix(RawSplit(a), RawSplit(b)) ==> DottedPrefix(a, b)
  {
    var p, pb := RawSplit(a), RawSplit(b);
    if ProperPrefix(p, pb) {
      var q := pb[|p|..];
      assert pb == p + q;
      JoinAppend(p, q);
      JoinRawSplit(a);
      JoinRawSplit(b);
      assert b == a + "." + Join(q);
      assert b[..|a|] == a;
    }
  }
}
