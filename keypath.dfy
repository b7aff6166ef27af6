/**
 * Key paths: the dotted strings passed to the translation function, and the
 * JavaScript `String.prototype.split('.')` that cuts them into segments.
 * Splitting never yields an empty sequence: the empty string splits to `[""]`,
 * and two adjacent dots give an empty segment between them.
 */
module KeyPath {

  const Separator: char := '.'

  /** A segment as `split` produces it: it never contains the separator. */
  predicate IsSegment(s: string) {
    Separator !in s
  }

  /** `s.split('.')`: the maximal dot-free pieces of `s`, in order. */
  function Split(s: string): (r: seq<string>)
    ensures |r| >= 1
    ensures forall i :: 0 <= i < |r| ==> IsSegment(r[i])
  {
    if |s| == 0 then [""]
    else
      var rest := Split(s[1..]);
      if s[0] == Separator then [""] + rest
      else [[s[0]] + rest[0]] + rest[1..]
  }

  /** `segs.join('.')`, the inverse of `Split`. */
  function Join(segs: seq<string>): string
    requires |segs| >= 1
  {
    if |segs| == 1 then segs[0] else segs[0] + [Separator] + Join(segs[1..])
  }

  /** Joining the pieces back with dots gives the original key. */
  lemma {:induction false} JoinSplit(s: string)
    ensures Join(Split(s)) == s
  {
    if |s| > 0 {
      JoinSplit(s[1..]);
      var rest := Split(s[1..]);
      if s[0] == Separator {
        assert Split(s) == [""] + rest;
        assert Split(s)[1..] == rest;
      } else {
        var r := Split(s);
        assert r == [[s[0]] + rest[0]] + rest[1..];
        if |rest| == 1 {
          assert s == [s[0]] + s[1..];
        } else {
          assert r[1..] == rest[1..];
          assert Join(rest) == rest[0] + [Separator] + Join(rest[1..]);
          assert s == [s[0]] + s[1..];
        }
      }
    }
  }

  /** A dot-free string is a single segment. */
  lemma {:induction false} SplitSegment(a: string)
    requires IsSegment(a)
    ensures Split(a) == [a]
  {
    if |a| > 0 {
      assert IsSegment(a[1..]) by {
        forall k | 0 <= k < |a[1..]| ensures a[1..][k] != Separator { assert a[1..][k] == a[k + 1]; }
      }
      SplitSegment(a[1..]);
      assert a == [a[0]] + a[1..];
    }
  }

  /** Splitting `a.b` for a dot-free `a` yields `a` followed by the pieces of `b`. */
  lemma {:induction false} SplitCons(a: string, b: string)
    requires IsSegment(a)
    ensures Split(a + [Separator] + b) == [a] + Split(b)
  {
    var s := a + [Separator] + b;
    if |a| == 0 {
      assert s == [Separator] + b;
      assert s[1..] == b;
    } else {
      assert IsSegment(a[1..]) by {
        forall k | 0 <= k < |a[1..]| ensures a[1..][k] != Separator { assert a[1..][k] == a[k + 1]; }
      }
      SplitCons(a[1..], b);
      assert s[1..] == a[1..] + [Separator] + b;
      assert s[0] == a[0] != Separator;
      assert a == [a[0]] + a[1..];
    }
  }

  /** Splitting a join of segments gives the segments back. */
  lemma {:induction false} SplitJoin(segs: seq<string>)
    requires |segs| >= 1
    requires forall i :: 0 <= i < |segs| ==> IsSegment(segs[i])
    ensures Split(Join(segs)) == segs
  {
    if |segs| == 1 {
      SplitSegment(segs[0]);
    } else {
      SplitJoin(segs[1..]);
      SplitCons(segs[0], Join(segs[1..]));
      assert segs == [segs[0]] + segs[1..];
    }
  }
}
