/** The parts of Go's `strings` and `path` packages the gateway relies on.
    A Go string is modelled as the sequence of Unicode code points it
    encodes. */
module Text {

  /** Number of occurrences of `c` in `s`. */
  function Count(s: string, c: char): nat
  {
    if s == [] then 0 else (if s[0] == c then 1 else 0) + Count(s[1..], c)
  }

  /** strings.Join of a non-empty list with a one-character separator. */
  function Join(parts: seq<string>, sep: char): string
    requires |parts| >= 1
  {
    if |parts| == 1 then parts[0] else parts[0] + [sep] + Join(parts[1..], sep)
  }

  /** strings.Split with a one-character separator: the maximal runs
      between separators, empty runs included. */
  function Split(s: string, sep: char): (r: seq<string>)
    ensures |r| == Count(s, sep) + 1
    ensures forall i :: 0 <= i < |r| ==> sep !in r[i]
    ensures Join(r, sep) == s
  {
    if s == [] then [[]]
    else
      var rest := Split(s[1..], sep);
      if s[0] == sep then
        assert ([[]] + rest)[1..] == rest;
        [[]] + rest
      else
        var r := [[s[0]] + rest[0]] + rest[1..];
        assert r[1..] == rest[1..];
        assert |rest| > 1 ==> Join(rest, sep) == rest[0] + [sep] + Join(rest[1..], sep);
        assert |rest| > 1 ==> Join(r, sep) == [s[0]] + rest[0] + [sep] + Join(rest[1..], sep);
        assert s == [s[0]] + s[1..];
        r
  }

  /** A run free of separators followed by a separator starts a new part. */
  lemma {:induction false} SplitAfterPart(w: string, sep: char, t: string)
    requires sep !in w
    ensures Split(w + [sep] + t, sep) == [w] + Split(t, sep)
    decreases |w|
  {
    var s := w + [sep] + t;
    if w == [] {
      assert s[1..] == t;
    } else {
      assert s[0] == w[0];
      assert s[1..] == w[1..] + [sep] + t;
      SplitAfterPart(w[1..], sep, t);
      assert [w[0]] + w[1..] == w;
    }
  }

  /** A string free of separators splits into itself. */
  lemma {:induction false} SplitWhole(w: string, sep: char)
    requires sep !in w
    ensures Split(w, sep) == [w]
    decreases |w|
  {
    if w != [] {
      SplitWhole(w[1..], sep);
      assert [w[0]] + w[1..] == w;
    }
  }

  /** Split undoes Join when no part contains the separator. */
  lemma {:induction false} SplitJoin(parts: seq<string>, sep: char)
    requires |parts| >= 1
    requires forall i :: 0 <= i < |parts| ==> sep !in parts[i]
    ensures Split(Join(parts, sep), sep) == parts
    decreases |parts|
  {
    if |parts| == 1 {
      SplitWhole(parts[0], sep);
    } else {
      SplitJoin(parts[1..], sep);
      SplitAfterPart(parts[0], sep, Join(parts[1..], sep));
      assert [parts[0]] + parts[1..] == parts;
    }
  }

  /** Unicode White_Space, the set Go's unicode.IsSpace tests. */
  predicate IsSpace(c: char)
  {
    var n := c as int;
    || 0x09 <= n <= 0x0D
    || n == 0x20 || n == 0x85 || n == 0xA0 || n == 0x1680
    || 0x2000 <= n <= 0x200A
    || n == 0x2028 || n == 0x2029 || n == 0x202F || n == 0x205F || n == 0x3000
  }

  predicate AllSpace(s: string)
  {
    forall i :: 0 <= i < |s| ==> IsSpace(s[i])
  }

  /** Neither end of `s` is white space. */
  predicate Trimmed(s: string)
  {
    s == [] || (!IsSpace(s[0]) && !IsSpace(s[|s| - 1]))
  }

  /** Every character of `s` from `lo` up to `hi` is white space. */
  predicate SpaceBetween(s: string, lo: int, hi: int)
    requires 0 <= lo && hi <= |s|
  {
    forall i :: lo <= i < hi ==> IsSpace(s[i])
  }

  /** Number of white-space characters `s` starts with. */
  function LeadLength(s: string): (n: nat)
    ensures n <= |s|
    ensures SpaceBetween(s, 0, n)
    ensures n < |s| ==> !IsSpace(s[n])
  {
    if s != [] && IsSpace(s[0]) then
      var n := LeadLength(s[1..]);
      assert forall i :: 1 <= i < |s| ==> s[i] == s[1..][i - 1];
      n + 1
    else
      0
  }

  /** Number of white-space characters `s` ends with. */
  function TrailLength(s: string): (n: nat)
    ensures n <= |s|
    ensures SpaceBetween(s, |s| - n, |s|)
    ensures n < |s| ==> !IsSpace(s[|s| - n - 1])
  {
    if s != [] && IsSpace(s[|s| - 1]) then TrailLength(s[..|s| - 1]) + 1 else 0
  }

  /** strings.TrimLeft with the white-space set: `s` without its leading
      white space. */
  function TrimLeft(s: string): string
  {
    s[LeadLength(s)..]
  }

  /** strings.TrimRight with the white-space set: `s` without its trailing
      white space. */
  function TrimRight(s: string): string
  {
    s[..|s| - TrailLength(s)]
  }

  /** strings.TrimSpace: `s` with white space removed from both ends. */
  function TrimSpace(s: string): (r: string)
    ensures Trimmed(r) && |r| <= |s|
  {
    TrimRight(TrimLeft(s))
  }

  /** What TrimSpace removes is white space: its result is the infix of `s`
      that starts after the leading white space, and everything after that
      infix is white space too. */
  lemma TrimSpaceInfix(s: string)
    ensures LeadLength(s) + |TrimSpace(s)| <= |s|
    ensures s[LeadLength(s)..LeadLength(s) + |TrimSpace(s)|] == TrimSpace(s)
    ensures SpaceBetween(s, 0, LeadLength(s))
    ensures SpaceBetween(s, LeadLength(s) + |TrimSpace(s)|, |s|)
  {
    var lead := LeadLength(s);
    var l := TrimLeft(s);
    var trail := TrailLength(l);
    var r := TrimSpace(s);
    assert r == l[..|l| - trail];
    assert s[lead..lead + |r|] == r by {
      forall i | 0 <= i < |r| ensures s[lead..lead + |r|][i] == r[i] {
        assert r[i] == l[i] == s[lead + i];
      }
    }
    forall i | lead + |r| <= i < |s| ensures IsSpace(s[i]) {
      assert s[i] == l[i - lead];
      assert SpaceBetween(l, |l| - trail, |l|);
    }
  }

  /** Trimming adds no character: one absent from `s` is absent from the
      result. */
  lemma TrimSpaceWithin(s: string, c: char)
    requires c !in s
    ensures c !in TrimSpace(s)
  {
    TrimSpaceInfix(s);
    var r := TrimSpace(s);
    var lead := LeadLength(s);
    forall j | 0 <= j < |r| ensures r[j] != c {
      assert r[j] == s[lead + j];
    }
  }

  /** Leading white space is counted whatever follows it. */
  lemma {:induction false} LeadPadding(a: string, p: string)
    requires AllSpace(a)
    requires p == [] || !IsSpace(p[0])
    ensures LeadLength(a + p) == |a|
    decreases |a|
  {
    if a != [] {
      assert (a + p)[1..] == a[1..] + p;
      LeadPadding(a[1..], p);
    } else {
      assert a + p == p;
    }
  }

  /** Trailing white space is counted whatever precedes it. */
  lemma {:induction false} TrailPadding(p: string, b: string)
    requires AllSpace(b)
    requires p == [] || !IsSpace(p[|p| - 1])
    ensures TrailLength(p + b) == |b|
    decreases |b|
  {
    if b != [] {
      assert (p + b)[..|p + b| - 1] == p + b[..|b| - 1];
      TrailPadding(p, b[..|b| - 1]);
    } else {
      assert p + b == p;
    }
  }

  /** TrimSpace recovers a trimmed string from any white-space padding, so
      the infix TrimSpaceInfix describes is the only one possible. */
  lemma TrimSpacePadding(a: string, p: string, b: string)
    requires AllSpace(a) && AllSpace(b) && Trimmed(p)
    ensures TrimSpace(a + p + b) == p
  {
    if p == [] {
      assert a + p + b == a + b;
      assert AllSpace(a + b) by {
        forall i | 0 <= i < |a + b| ensures IsSpace((a + b)[i]) {
          if i >= |a| { assert (a + b)[i] == b[i - |a|]; }
        }
      }
      LeadPadding(a + b, []);
      assert a + b + [] == a + b;
    } else {
      assert a + p + b == a + (p + b);
      LeadPadding(a, p + b);
      assert TrimLeft(a + p + b) == p + b;
      TrailPadding(p, b);
      assert (p + b)[..|p + b| - |b|] == p;
    }
  }

  /** Length of the extension path.Ext finds: scanning back from the end,
      the distance to the final '.' of the last slash-separated element, or
      0 when that element has no '.'. */
  function ExtLength(p: string): (n: nat)
    ensures n <= |p|
    ensures n > 0 ==> p[|p| - n] == '.'
    ensures forall i :: |p| - n < i < |p| ==> p[i] != '.' && p[i] != '/'
  {
    if p == [] then 0
    else
      var c := p[|p| - 1];
      if c == '/' then 0
      else if c == '.' then 1
      else
        var e := ExtLength(p[..|p| - 1]);
        if e == 0 then 0 else e + 1
  }

  /** path.Ext: the suffix of `p` starting at the final '.' of its last
      slash-separated element, or "" when that element has no '.'. */
  function Ext(p: string): (r: string)
    ensures r == [] || r[0] == '.'
    ensures |r| <= |p|
  {
    p[|p| - ExtLength(p)..]
  }

  /** A non-empty extension starts at a '.' and holds no other '.' and no
      '/'. */
  lemma ExtShape(p: string)
    ensures Ext(p) == [] || (Ext(p)[0] == '.' && '/' !in Ext(p) && '.' !in Ext(p)[1..])
  {
    var e := Ext(p);
    var n := ExtLength(p);
    if e != [] {
      forall j | 0 <= j < |e| ensures e[j] != '/' && (j > 0 ==> e[j] != '.') {
        assert e[j] == p[|p| - n + j];
      }
      assert forall j :: 0 <= j < |e[1..]| ==> e[1..][j] == e[j + 1];
    }
  }

  /** An empty extension means the last element of the path has no '.'. */
  lemma {:induction false} ExtEmptyHasNoDot(p: string)
    requires Ext(p) == []
    ensures forall i :: 0 <= i < |p| && '/' !in p[i..] ==> p[i] != '.'
    decreases |p|
  {
    if p != [] && p[|p| - 1] != '/' {
      var init := p[..|p| - 1];
      ExtEmptyHasNoDot(init);
      forall i | 0 <= i < |p| && '/' !in p[i..] ensures p[i] != '.' {
        if i < |init| {
          assert p[i..] == init[i..] + [p[|p| - 1]];
        }
      }
    }
  }

  /** Appending a character other than '/' and '.' extends a non-empty
      extension and leaves an empty one empty. */
  lemma ExtAppend(q: string, c: char)
    requires c != '/' && c != '.'
    ensures ExtLength(q + [c]) == (if ExtLength(q) == 0 then 0 else ExtLength(q) + 1)
  {
    assert (q + [c])[..|q + [c]| - 1] == q;
  }

  /** A path ending in ".txt" has extension ".txt". */
  lemma EndsInTxt(q: string)
    ensures Ext(q + ".txt") == ".txt"
  {
    var q1 := q + ['.'];
    var q2 := q1 + ['t'];
    var q3 := q2 + ['x'];
    assert ExtLength(q1) == 1 by { assert q1[|q1| - 1] == '.'; }
    assert ExtLength(q2) == 2 by { ExtAppend(q1, 't'); }
    assert ExtLength(q3) == 3 by { ExtAppend(q2, 'x'); }
    assert ExtLength(q3 + ['t']) == 4 by { ExtAppend(q3, 't'); }
    assert q3 + ['t'] == q + ".txt";
  }

  /** The extension is ".txt" exactly when the path ends in ".txt". */
  lemma TxtExtension(p: string)
    ensures Ext(p) == ".txt" <==> |p| >= 4 && p[|p| - 4..] == ".txt"
  {
    if |p| >= 4 && p[|p| - 4..] == ".txt" {
      assert p == p[..|p| - 4] + ".txt";
      EndsInTxt(p[..|p| - 4]);
    }
  }
}
