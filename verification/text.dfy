/** Strings as the modelled program sees them: Python whitespace, `str.strip`
    and the code-point order that `sorted` uses. */
module Text {
  import opened Sequences

  datatype Option<+T> = None | Some(value: T)

  /** A value, or the exception that was raised instead. */
  datatype Result<+T, +E> = Success(value: T) | Failure(error: E)

  /** The characters `str.isspace` accepts. */
  predicate IsSpace(c: char) {
    || '\t' <= c <= '\r'
    || '\U{1c}' <= c <= ' '
    || c == '\U{85}' || c == '\U{a0}' || c == '\U{1680}'
    || '\U{2000}' <= c <= '\U{200a}'
    || c == '\U{2028}' || c == '\U{2029}' || c == '\U{202f}' || c == '\U{205f}' || c == '\U{3000}'
  }

  function LStrip(s: string): string {
    if s != "" && IsSpace(s[0]) then LStrip(s[1..]) else s
  }

  function RStrip(s: string): string {
    if s != "" && IsSpace(s[|s| - 1]) then RStrip(s[..|s| - 1]) else s
  }

  function Strip(s: string): string {
    RStrip(LStrip(s))
  }

  predicate Trimmed(s: string) {
    s == "" || (!IsSpace(s[0]) && !IsSpace(s[|s| - 1]))
  }

  lemma {:induction false} LStripStart(s: string)
    ensures LStrip(s) == "" || !IsSpace(LStrip(s)[0])
  {
    if s != "" && IsSpace(s[0]) {
      LStripStart(s[1..]);
    }
  }

  lemma {:induction false} RStripEnds(s: string)
    ensures RStrip(s) <= s
    ensures RStrip(s) == "" || !IsSpace(RStrip(s)[|RStrip(s)| - 1])
  {
    if s != "" && IsSpace(s[|s| - 1]) {
      RStripEnds(s[..|s| - 1]);
    }
  }

  lemma {:induction false} RStripKeeps(s: string, k: nat)
    requires k < |s| && !IsSpace(s[k])
    ensures |RStrip(s)| > k
  {
    if IsSpace(s[|s| - 1]) {
      RStripKeeps(s[..|s| - 1], k);
    }
  }

  /** Stripping yields a trimmed string, and leaves exactly the trimmed strings alone. */
  lemma StripTrims(s: string)
    ensures Trimmed(Strip(s))
    ensures Strip(s) == s <==> Trimmed(s)
  {
    LStripStart(s);
    RStripEnds(LStrip(s));
  }

  predicate Blank(s: string) {
    forall i :: 0 <= i < |s| ==> IsSpace(s[i])
  }

  lemma {:induction false} LStripDrops(a: string, s: string)
    requires Blank(a) && Trimmed(s)
    ensures LStrip(a + s) == s
    decreases |a|
  {
    hide IsSpace;
    if a == "" {
      assert a + s == s;
    } else {
      assert (a + s)[1..] == a[1..] + s;
      LStripDrops(a[1..], s);
    }
  }

  lemma {:induction false} RStripDrops(s: string, b: string)
    requires Trimmed(s) && Blank(b)
    ensures RStrip(s + b) == s
    decreases |b|
  {
    hide IsSpace;
    if b == "" {
      assert s + b == s;
    } else {
      assert (s + b)[..|s + b| - 1] == s + b[..|b| - 1];
      RStripDrops(s, b[..|b| - 1]);
    }
  }

  lemma {:induction false} LStripKeeps(a: string, s: string, b: string)
    requires Blank(a) && s != "" && Trimmed(s)
    ensures LStrip(a + s + b) == s + b
    decreases |a|
  {
    hide IsSpace;
    if a == "" {
      assert a + s + b == s + b;
    } else {
      assert (a + s + b)[1..] == a[1..] + s + b;
      LStripKeeps(a[1..], s, b);
    }
  }

  /** Stripping takes away exactly the blank characters around a trimmed text. */
  lemma StripDrops(a: string, s: string, b: string)
    requires Blank(a) && Trimmed(s) && Blank(b)
    ensures Strip(a + s + b) == s
  {
    hide IsSpace, LStrip, RStrip;
    if s == "" {
      assert a + s + b == (a + b) + s;
      LStripDrops(a + b, s);
      RStripDrops("", "");
      assert "" + "" == "";
    } else {
      LStripKeeps(a, s, b);
      RStripDrops(s, b);
    }
  }

  lemma SpacesAre(c: char)
    ensures IsSpace(c) <==> c as int in {9, 10, 11, 12, 13, 28, 29, 30, 31, 32, 133, 160, 5760, 8232, 8233, 8239, 8287,
                                         12288} || 8192 <= c as int <= 8202
  {
  }

  lemma StripDropsLeadingSpace(c: char, s: string)
    requires IsSpace(c)
    ensures Strip([c] + s) == Strip(s)
  {
    assert ([c] + s)[1..] == s;
  }

  // ---------------------------------------------------------------- ordering

  /** `a <= b` in the code-point order of strings. */
  predicate Leq(a: string, b: string) {
    a == "" || (b != "" && (a[0] < b[0] || (a[0] == b[0] && Leq(a[1..], b[1..]))))
  }

  predicate Less(a: string, b: string) {
    a != b && Leq(a, b)
  }

  /** The first differing character decides, and a proper beginning comes first. */
  lemma {:induction false} LessByCharacter(front: string, a: string, b: string)
    requires a == "" || b == "" || a[0] != b[0]
    ensures Less(front + a, front + b) <==> b != "" && (a == "" || a[0] < b[0])
    decreases |front|
  {
    if front == "" {
      assert front + a == a && front + b == b;
    } else {
      assert (front + a)[1..] == front[1..] + a && (front + b)[1..] == front[1..] + b;
      LessByCharacter(front[1..], a, b);
    }
  }

  lemma {:induction false} LeqTotal(a: string, b: string)
    ensures Leq(a, b) || Leq(b, a)
  {
    if a != "" && b != "" {
      LeqTotal(a[1..], b[1..]);
    }
  }

  lemma {:induction false} LeqAntisymmetric(a: string, b: string)
    requires Leq(a, b) && Leq(b, a)
    ensures a == b
  {
    if a != "" && b != "" {
      LeqAntisymmetric(a[1..], b[1..]);
      assert a == [a[0]] + a[1..] && b == [b[0]] + b[1..];
    }
  }

  lemma {:induction false} LeqTransitive(a: string, b: string, c: string)
    requires Leq(a, b) && Leq(b, c)
    ensures Leq(a, c)
  {
    if a != "" && a[0] == b[0] == c[0] {
      LeqTransitive(a[1..], b[1..], c[1..]);
    }
  }

  predicate IsLeast(x: string, s: set<string>) {
    x in s && forall y :: y in s ==> Leq(x, y)
  }

  lemma {:induction false} LeastExists(s: set<string>)
    requires s != {}
    ensures exists x :: IsLeast(x, s)
    decreases s
  {
    var x :| x in s;
    LeqReflexive(x);
    if s == {x} {
      assert IsLeast(x, s);
    } else {
      LeastExists(s - {x});
      var y :| IsLeast(y, s - {x});
      LeqTotal(x, y);
      if Leq(x, y) {
        forall z | z in s ensures Leq(x, z) {
          if z != x { LeqTransitive(x, y, z); }
        }
        assert IsLeast(x, s);
      } else {
        assert IsLeast(y, s);
      }
    }
  }

  lemma {:induction false} LeqReflexive(a: string)
    ensures Leq(a, a)
  {
    LeqTotal(a, a);
  }

  lemma LeastUnique(s: set<string>)
    ensures forall x, y :: IsLeast(x, s) && IsLeast(y, s) ==> x == y
  {
    forall x, y | IsLeast(x, s) && IsLeast(y, s) ensures x == y {
      LeqAntisymmetric(x, y);
    }
  }

  /** `sorted(s)` for a set of strings. */
  function Sorted(s: set<string>): (r: seq<string>)
    ensures forall x :: x in r <==> x in s
    ensures |r| == |s|
    decreases |s|
  {
    if s == {} then []
    else
      LeastExists(s);
      LeastUnique(s);
      var x :| IsLeast(x, s);
      assert s == {x} + (s - {x});
      [x] + Sorted(s - {x})
  }

  lemma {:induction false} SortedIsIncreasing(s: set<string>)
    ensures forall i, j :: 0 <= i < j < |Sorted(s)| ==> Less(Sorted(s)[i], Sorted(s)[j])
    decreases |s|
  {
    if s != {} {
      LeastExists(s);
      LeastUnique(s);
      var x :| IsLeast(x, s);
      var rest := Sorted(s - {x});
      assert s == {x} + (s - {x});
      SortedIsIncreasing(s - {x});
      forall i, j | 0 <= i < j < |Sorted(s)| ensures Less(Sorted(s)[i], Sorted(s)[j]) {
        assert rest[j - 1] in rest;
      }
    }
  }

  lemma SortedIsDistinct(names: set<string>)
    ensures Distinct(Sorted(names))
  {
    hide Sorted;
    SortedIsIncreasing(names);
  }

  /** Comparing strings compares their equally long beginnings first. */
  lemma {:induction false} LeqPrefix(a: string, b: string, n: nat)
    requires Leq(a, b) && n <= |a| && n <= |b|
    ensures Leq(a[..n], b[..n])
  {
    if n > 0 {
      if a[0] == b[0] {
        LeqPrefix(a[1..], b[1..], n - 1);
        assert a[..n][1..] == a[1..][..n - 1] && b[..n][1..] == b[1..][..n - 1];
      }
    }
  }
}
