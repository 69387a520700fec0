/** String helpers with JavaScript's meaning: Array.prototype.join,
    String.prototype.split on a one-character pattern, String.prototype.includes,
    String.prototype.replace with a string pattern (first occurrence only), and
    the decimal rendering of an integer. */
module Text {
  import opened Wrappers

  /** `parts.join(sep)`. */
  function Join(parts: seq<string>, sep: string): string
  {
    if |parts| == 0 then ""
    else if |parts| == 1 then parts[0]
    else parts[0] + sep + Join(parts[1..], sep)
  }

  lemma JoinCons(a: string, rest: seq<string>, sep: string)
    ensures Join([a] + rest, sep) == if rest == [] then a else a + sep + Join(rest, sep)
  {
    assert ([a] + rest)[1..] == rest;
  }

  lemma {:induction false} JoinSnoc(parts: seq<string>, x: string, sep: string)
    ensures Join(parts + [x], sep) == if parts == [] then x else Join(parts, sep) + sep + x
  {
    if |parts| == 1 {
      assert (parts + [x])[1..] == [x];
    } else if |parts| > 1 {
      assert (parts + [x])[1..] == parts[1..] + [x];
      JoinSnoc(parts[1..], x, sep);
    }
  }

  /** Two to four parts joined, written out. */
  lemma JoinFew(arr: seq<string>, sep: string)
    requires 2 <= |arr| <= 4
    ensures |arr| == 2 ==> Join(arr, sep) == arr[0] + sep + arr[1]
    ensures |arr| == 3 ==> Join(arr, sep) == arr[0] + sep + arr[1] + sep + arr[2]
    ensures |arr| == 4 ==> Join(arr, sep) == arr[0] + sep + arr[1] + sep + arr[2] + sep + arr[3]
  {
    JoinCons(arr[0], arr[1..], sep);
    assert arr == [arr[0]] + arr[1..];
    JoinCons(arr[1], arr[2..], sep);
    assert arr[1..] == [arr[1]] + arr[2..];
    if |arr| > 2 {
      JoinCons(arr[2], arr[3..], sep);
      assert arr[2..] == [arr[2]] + arr[3..];
      if |arr| == 4 {
        assert Join(arr[3..], sep) == arr[3];
      }
    }
  }

  lemma TakeSnoc<T>(s: seq<T>, i: nat)
    requires i < |s|
    ensures s[..i + 1] == s[..i] + [s[i]]
  {
  }

  lemma AppendAssoc(a: string, b: string, c: string)
    ensures a + (b + c) == a + b + c
  {
  }

  /** `s.split(/c/g)`: every occurrence of `c` separates two segments and empty
      segments are kept, so the result is never empty. */
  function Split(s: string, c: char): (r: seq<string>)
    ensures |r| >= 1
    ensures forall i :: 0 <= i < |r| ==> c !in r[i]
  {
    if s == [] then [""]
    else
      var rest := Split(s[1..], c);
      if s[0] == c then [""] + rest
      else [[s[0]] + rest[0]] + rest[1..]
  }

  /** Number of occurrences of `c` in `s`. */
  function Count(s: string, c: char): nat
  {
    if s == [] then 0 else (if s[0] == c then 1 else 0) + Count(s[1..], c)
  }

  /** `s` with every `c` replaced by `d`. */
  function Swap(s: string, c: char, d: char): (r: string)
  {
    if s == [] then [] else [if s[0] == c then d else s[0]] + Swap(s[1..], c, d)
  }

  /** Splitting on `c` gives one more segment than there are occurrences of `c`. */
  lemma {:induction false} SplitLength(s: string, c: char)
    ensures |Split(s, c)| == Count(s, c) + 1
  {
    if s != [] {
      SplitLength(s[1..], c);
    }
  }

  /** Joining the segments with `d` is the same as replacing every `c` by `d`. */
  lemma {:induction false} JoinSplitSwap(s: string, c: char, d: char)
    ensures Join(Split(s, c), [d]) == Swap(s, c, d)
  {
    if s != [] {
      var rest := Split(s[1..], c);
      JoinSplitSwap(s[1..], c, d);
      if s[0] == c {
        JoinCons("", rest, [d]);
      } else {
        JoinExtendFirst([s[0]], rest, [d]);
      }
    }
  }

  /** Extending the first part extends the joined text by the same prefix. */
  lemma JoinExtendFirst(x: string, parts: seq<string>, sep: string)
    requires parts != []
    ensures Join([x + parts[0]] + parts[1..], sep) == x + Join(parts, sep)
  {
    JoinCons(x + parts[0], parts[1..], sep);
    JoinCons(parts[0], parts[1..], sep);
    assert parts == [parts[0]] + parts[1..];
  }

  lemma {:induction false} SwapSame(s: string, c: char)
    ensures Swap(s, c, c) == s
  {
    if s != [] {
      SwapSame(s[1..], c);
    }
  }

  /** Round trip one way: joining the segments with the separator gives back the string. */
  lemma JoinSplit(s: string, c: char)
    ensures Join(Split(s, c), [c]) == s
  {
    JoinSplitSwap(s, c, c);
    SwapSame(s, c);
  }

  lemma {:induction false} SplitWithout(a: string, c: char)
    requires c !in a
    ensures Split(a, c) == [a]
  {
    if a != [] {
      assert c !in a[1..];
      SplitWithout(a[1..], c);
      assert [a[0]] + a[1..] == a;
    }
  }

  /** A segment free of the separator, followed by the separator, splits off first. */
  lemma {:induction false} SplitAfter(a: string, c: char, b: string)
    requires c !in a
    ensures Split(a + [c] + b, c) == [a] + Split(b, c)
  {
    if a == [] {
      assert a + [c] + b == [c] + b;
      assert ([c] + b)[1..] == b;
    } else {
      assert (a + [c] + b)[1..] == a[1..] + [c] + b;
      SplitAfter(a[1..], c, b);
      assert [a[0]] + a[1..] == a;
    }
  }

  /** Round trip the other way: segments free of the separator come back from
      splitting their join. */
  lemma {:induction false} SplitJoin(parts: seq<string>, c: char)
    requires |parts| >= 1
    requires forall i :: 0 <= i < |parts| ==> c !in parts[i]
    ensures Split(Join(parts, [c]), c) == parts
  {
    if |parts| == 1 {
      SplitWithout(parts[0], c);
    } else {
      SplitJoin(parts[1..], c);
      SplitAfter(parts[0], c, Join(parts[1..], [c]));
      assert parts == [parts[0]] + parts[1..];
    }
  }

  /** `s.includes(p)`. */
  function Contains(s: string, p: string): bool
  {
    p <= s || (s != [] && Contains(s[1..], p))
  }

  lemma {:induction false} ContainsSuffix(a: string, b: string, p: string)
    requires Contains(b, p)
    ensures Contains(a + b, p)
  {
    if a != [] {
      ContainsSuffix(a[1..], b, p);
      assert (a + b)[1..] == a[1..] + b;
    } else {
      assert a + b == b;
    }
  }

  /** Index of the first occurrence of `p` in `s`. */
  function IndexOf(s: string, p: string): (r: Option<nat>)
    ensures r.Some? ==> r.value + |p| <= |s| && s[r.value..r.value + |p|] == p
    ensures r.Some? ==> forall j :: 0 <= j < r.value ==> !(p <= s[j..])
    ensures r.None? <==> !Contains(s, p)
  {
    if p <= s then Some(0)
    else if s == [] then None
    else
      match IndexOf(s[1..], p)
      case None => None
      case Some(i) =>
        assert forall j :: 1 <= j <= i ==> s[j..] == s[1..][j - 1..];
        Some(i + 1)
  }

  /** `s.replace(pat, rep)` with a string pattern: only the first occurrence is
      replaced. */
  function ReplaceFirst(s: string, pat: string, rep: string): string
  {
    match IndexOf(s, pat)
    case None => s
    case Some(i) => s[..i] + rep + s[i + |pat|..]
  }

  /** An occurrence at any position means the pattern is contained. */
  lemma {:induction false} ContainsAt(s: string, p: string, k: nat)
    requires k <= |s| && p <= s[k..]
    ensures Contains(s, p)
  {
    if k > 0 {
      assert s[1..][k - 1..] == s[k..];
      ContainsAt(s[1..], p, k - 1);
    }
  }

  /** Replacing the first occurrence, when no occurrence starts inside the
      text before the one at `x`: nothing of `x` overlaps the pattern, so the
      first occurrence is the one right after `x`. */
  lemma ReplaceFirstAt(x: string, pat: string, rep: string, y: string)
    requires pat != [] && !Contains(x + pat[..|pat| - 1], pat)
    ensures ReplaceFirst(x + pat + y, pat, rep) == x + rep + y
  {
    var s := x + pat + y;
    assert s[|x|..][..|pat|] == pat;
    ContainsAt(s, pat, |x|);
    var i := IndexOf(s, pat).value;
    if i < |x| {
      var w := x + pat[..|pat| - 1];
      assert s[..|w|] == w;
      assert w[i..] == s[i..][..|w| - i];
      assert pat <= w[i..];
      ContainsAt(w, pat, i);
    }
    assert i == |x|;
    assert s[..i] == x && s[i + |pat|..] == y;
  }

  /** Replacing by a text at least as long never shortens the string. */
  lemma ReplaceFirstLength(s: string, pat: string, rep: string)
    requires |rep| >= |pat|
    ensures |ReplaceFirst(s, pat, rep)| >= |s|
  {
  }

  /** Nothing to replace in the empty string. */
  lemma ReplaceFirstEmpty(pat: string, rep: string)
    requires pat != []
    ensures ReplaceFirst("", pat, rep) == ""
  {
  }

  /** The character for one decimal digit. */
  function Digit(d: nat): char
    requires d < 10
  {
    (48 + d) as char
  }

  predicate IsDigit(ch: char)
  {
    48 <= ch as int <= 57
  }

  /** `String(n)` for a natural number: its decimal digits, most significant first. */
  function NatToString(n: nat): (r: string)
    ensures |r| >= 1
    ensures forall i :: 0 <= i < |r| ==> IsDigit(r[i])
  {
    if n < 10 then [Digit(n)] else NatToString(n / 10) + [Digit(n % 10)]
  }

  /** `String(i)` for an integer. */
  function IntToString(i: int): string
  {
    if i < 0 then "-" + NatToString(-i) else NatToString(i)
  }

  /** The number a string of decimal digits denotes. */
  function ParseNat(s: string): nat
    requires forall i :: 0 <= i < |s| ==> IsDigit(s[i])
  {
    if s == [] then 0
    else
      assert IsDigit(s[|s| - 1]);
      ParseNat(s[..|s| - 1]) * 10 + (s[|s| - 1] as int - 48)
  }

  /** Reading back the rendered digits gives the number. */
  lemma {:induction false} ParseNatToString(n: nat)
    ensures ParseNat(NatToString(n)) == n
  {
    if n >= 10 {
      var s := NatToString(n);
      assert s[..|s| - 1] == NatToString(n / 10);
      ParseNatToString(n / 10);
    }
  }

  /** Rendering is injective: distinct numbers have distinct decimal texts. */
  lemma NatToStringInjective(m: nat, n: nat)
    requires NatToString(m) == NatToString(n)
    ensures m == n
  {
    ParseNatToString(m);
    ParseNatToString(n);
  }
}
