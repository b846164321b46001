/**
 * The few Python string operations the exporter relies on, on `seq<char>`:
 * `sep.join(parts)`, `s.split(c)` with a one-character separator and `s[:n]`.
 */
module Strings {

  /** `sep.join(parts)` */
  function Join(sep: string, parts: seq<string>): string
    decreases |parts|
  {
    if |parts| == 0 then ""
    else if |parts| == 1 then parts[0]
    else parts[0] + sep + Join(sep, parts[1..])
  }

  /** `s.split(c)`: the maximal runs of `s` between occurrences of `c`, never an empty list. */
  function Split(s: string, c: char): (parts: seq<string>)
    ensures |parts| >= 1
    ensures forall i :: 0 <= i < |parts| ==> c !in parts[i]
    decreases |s|
  {
    if |s| == 0 then [""]
    else if s[0] == c then [""] + Split(s[1..], c)
    else
      var rest := Split(s[1..], c);
      [[s[0]] + rest[0]] + rest[1..]
  }

  /** `s.split(c)[-1]`: what follows the last `c` in `s`, or all of `s` when there is none. */
  function LastSegment(s: string, c: char): string
  {
    var parts := Split(s, c);
    parts[|parts| - 1]
  }

  /** `s[:n]` */
  function Take(s: string, n: nat): (r: string)
    ensures |r| == if |s| < n then |s| else n
    ensures r == s[..|r|]
  {
    if |s| <= n then s else s[..n]
  }

  /** Each part with a blank put before it. */
  function Indented(parts: seq<string>): seq<string>
  {
    seq(|parts|, i requires 0 <= i < |parts| => " " + parts[i])
  }

  /** Putting `pre` before the first part puts it before the whole join. */
  lemma JoinPrefixFirst(sep: string, pre: string, first: string, rest: seq<string>)
    ensures Join(sep, [pre + first] + rest) == pre + Join(sep, [first] + rest)
  {
    if |rest| > 0 {
      assert ([pre + first] + rest)[1..] == rest == ([first] + rest)[1..];
    }
  }

  /** `", ".join` is `",".join` with a blank put before every part but the first. */
  lemma {:induction false} JoinWithBlank(first: string, rest: seq<string>)
    ensures Join(", ", [first] + rest) == Join(",", [first] + Indented(rest))
    decreases |rest|
  {
    if |rest| > 0 {
      JoinWithBlank(rest[0], rest[1..]);
      assert [rest[0]] + rest[1..] == rest;
      assert Indented(rest) == [" " + rest[0]] + Indented(rest[1..]);
      JoinPrefixFirst(",", " ", rest[0], Indented(rest[1..]));
      assert ([first] + rest)[1..] == rest;
      assert ([first] + Indented(rest))[1..] == Indented(rest);
    }
  }

  /** Splitting undoes joining with the same one-character separator: `c.join(s.split(c)) == s`. */
  lemma {:induction false} JoinSplit(s: string, c: char)
    ensures Join([c], Split(s, c)) == s
    decreases |s|
  {
    if |s| > 0 {
      JoinSplit(s[1..], c);
      var rest := Split(s[1..], c);
      if s[0] == c {
        assert Split(s, c)[1..] == rest;
        if |rest| == 1 {
          assert Join([c], Split(s, c)) == "" + [c] + rest[0];
        }
        assert s == [s[0]] + s[1..];
      } else {
        var parts := Split(s, c);
        assert parts[0] == [s[0]] + rest[0] && parts[1..] == rest[1..];
        if |rest| == 1 {
          assert Join([c], parts) == [s[0]] + rest[0];
        } else {
          assert Join([c], rest) == rest[0] + [c] + Join([c], rest[1..]);
          assert Join([c], parts) == [s[0]] + rest[0] + [c] + Join([c], rest[1..]);
        }
        assert s == [s[0]] + s[1..];
      }
    }
  }

  /** A run free of `c`, then `c`, splits off as the first part. */
  lemma {:induction false} SplitAfterPart(p: string, c: char, t: string)
    requires c !in p
    ensures Split(p + [c] + t, c) == [p] + Split(t, c)
    decreases |p|
  {
    if |p| == 0 {
      assert p + [c] + t == [c] + t;
      assert ([c] + t)[1..] == t;
    } else {
      SplitAfterPart(p[1..], c, t);
      assert (p + [c] + t)[1..] == p[1..] + [c] + t;
      assert p == [p[0]] + p[1..];
    }
  }

  /** A string free of `c` is one part. */
  lemma {:induction false} SplitWithout(p: string, c: char)
    requires c !in p
    ensures Split(p, c) == [p]
    decreases |p|
  {
    if |p| > 0 {
      SplitWithout(p[1..], c);
      assert p == [p[0]] + p[1..];
    }
  }

  /** Joining parts free of `c` with `c` and splitting again gives the parts back. */
  lemma {:induction false} SplitJoin(parts: seq<string>, c: char)
    requires |parts| >= 1
    requires forall i :: 0 <= i < |parts| ==> c !in parts[i]
    ensures Split(Join([c], parts), c) == parts
    decreases |parts|
  {
    if |parts| == 1 {
      SplitWithout(parts[0], c);
    } else {
      SplitJoin(parts[1..], c);
      SplitAfterPart(parts[0], c, Join([c], parts[1..]));
      assert [parts[0]] + parts[1..] == parts;
    }
  }

  /** `s.split(c)[-1]` is `s.split(c)` of the tail's last part unless `s` is one part with no `c`. */
  lemma LastSegmentOfTail(s: string, c: char)
    requires |s| > 0
    ensures c in s[1..] || s[0] == c ==> LastSegment(s, c) == LastSegment(s[1..], c)
    ensures c !in s ==> LastSegment(s, c) == s
  {
    var rest := Split(s[1..], c);
    var parts := Split(s, c);
    JoinSplit(s[1..], c);
    if |rest| == 1 {
      assert rest[0] == s[1..];
    } else {
      assert s[1..] == rest[0] + [c] + Join([c], rest[1..]);
    }
    if c !in s {
      SplitWithout(s, c);
    }
  }

  /**
   * `s.split(c)[-1]` is the longest suffix of `s` free of `c`: it is a suffix,
   * it holds no `c`, and the character before it (if any) is `c`.
   */
  lemma {:induction false} LastSegmentIsLongestSuffix(s: string, c: char)
    ensures var r := LastSegment(s, c);
      && |r| <= |s| && s[|s| - |r|..] == r && c !in r
      && (|r| < |s| ==> s[|s| - |r| - 1] == c)
    decreases |s|
  {
    if |s| > 0 {
      var t := s[1..];
      LastSegmentOfTail(s, c);
      if c in s {
        LastSegmentIsLongestSuffix(t, c);
        var r := LastSegment(t, c);
        if s[0] == c && c !in t {
          SplitWithout(t, c);
        } else {
          assert c in t;
          assert |r| < |t|;
        }
        assert s[|s| - |r|..] == t[|t| - |r|..];
      }
    }
  }
}
