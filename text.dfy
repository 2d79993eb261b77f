/** Python string behaviour the backend relies on: `str.isspace` and the regex
    class `\s`, `strip()`, argument-less `split()`, `join`, `lower()`,
    `in` on strings, `str(n)` for naturals and `xs[:k]` slicing. */
module Text {

  type String = seq<char>

  /** The characters Python treats as whitespace: `str.isspace()` and the
      regex class `\s` on `str` patterns accept exactly these. */
  predicate IsSpace(c: char) {
    || c == ' ' || c == '\t' || c == '\n' || c == '\r'
    || c == '\U{000B}' || c == '\U{000C}'
    || ('\U{001C}' <= c <= '\U{001F}')
    || c == '\U{0085}' || c == '\U{00A0}' || c == '\U{1680}'
    || ('\U{2000}' <= c <= '\U{200A}')
    || c == '\U{2028}' || c == '\U{2029}' || c == '\U{202F}' || c == '\U{205F}'
    || c == '\U{3000}'
  }

  predicate IsAsciiDigit(c: char) {
    '0' <= c <= '9'
  }

  /** `s.isdigit()`, with digits restricted to ASCII. */
  predicate IsAllDigits(s: String) {
    s != [] && forall i :: 0 <= i < |s| ==> IsAsciiDigit(s[i])
  }

  /** No whitespace at either end: what `strip()` leaves. */
  predicate IsStripped(s: String) {
    s == [] || (!IsSpace(s[0]) && !IsSpace(s[|s| - 1]))
  }

  /** Every character outside positions [a, b) of `s` is whitespace. */
  ghost predicate SpaceOutside(s: String, a: int, b: int)
    requires 0 <= a <= b <= |s|
  {
    (forall i :: 0 <= i < a ==> IsSpace(s[i])) && (forall i :: b <= i < |s| ==> IsSpace(s[i]))
  }

  /** `s.lstrip()` */
  function LStrip(s: String): (r: String)
    ensures |r| <= |s|
    ensures s != [] && IsSpace(s[0]) ==> |r| < |s|
    ensures r == [] || !IsSpace(r[0])
    ensures forall i :: 0 <= i < |s| - |r| ==> IsSpace(s[i])
  {
    if s != [] && IsSpace(s[0]) then LStrip(s[1..]) else s
  }

  /** `lstrip()` keeps a suffix. */
  lemma {:induction false} LStripSuffix(s: String)
    ensures LStrip(s) == s[|s| - |LStrip(s)|..]
  {
    if s != [] && IsSpace(s[0]) {
      LStripSuffix(s[1..]);
    }
  }

  /** `s.rstrip()` */
  function RStrip(s: String): (r: String)
    ensures |r| <= |s| && r == s[..|r|]
    ensures r == [] || !IsSpace(r[|r| - 1])
    ensures forall i :: |r| <= i < |s| ==> IsSpace(s[i])
  {
    if s != [] && IsSpace(s[|s| - 1]) then RStrip(s[..|s| - 1]) else s
  }

  /** `s.strip()` */
  function Strip(s: String): (r: String)
    ensures IsStripped(r) && |r| <= |s|
  {
    RStrip(LStrip(s))
  }

  /** Where `strip()`'s result starts in `s`. */
  function StripStart(s: String): nat {
    |s| - |LStrip(s)|
  }

  /** `strip()` removes whitespace only, from both ends, and leaves a
      stripped string. */
  lemma StripSpec(s: String)
    ensures IsStripped(Strip(s))
    ensures StripStart(s) + |Strip(s)| <= |s|
    ensures Strip(s) == s[StripStart(s)..StripStart(s) + |Strip(s)|]
    ensures SpaceOutside(s, StripStart(s), StripStart(s) + |Strip(s)|)
  {
    var l := LStrip(s);
    var r := RStrip(l);
    var a := |s| - |l|;
    LStripSuffix(s);
    assert r == s[a..a + |r|];
    if r != [] {
      assert r[0] == l[0];
    }
  }

  /** `strip()` is the identity exactly on stripped strings. */
  lemma StripIdentity(s: String)
    ensures Strip(s) == s <==> IsStripped(s)
  {
    StripSpec(s);
    if IsStripped(s) && s != [] {
      assert LStrip(s) == s;
    }
  }

  lemma StripIdempotent(s: String)
    ensures Strip(Strip(s)) == Strip(s)
  {
    StripSpec(s);
    StripIdentity(Strip(s));
  }

  /** A string with no whitespace at all is its own strip. */
  lemma StripNoSpace(s: String)
    requires forall i :: 0 <= i < |s| ==> !IsSpace(s[i])
    ensures Strip(s) == s
  {
    StripIdentity(s);
  }

  /** Stripping a string made only of whitespace leaves nothing. */
  lemma {:induction false} StripAllSpace(s: String)
    requires forall i :: 0 <= i < |s| ==> IsSpace(s[i])
    ensures LStrip(s) == [] && Strip(s) == []
  {
    if s != [] {
      StripAllSpace(s[1..]);
    }
  }

  /** `strip()` leaves nothing exactly when every character is whitespace. */
  lemma StripEmpty(s: String)
    ensures Strip(s) == [] <==> forall i :: 0 <= i < |s| ==> IsSpace(s[i])
  {
    if forall i :: 0 <= i < |s| ==> IsSpace(s[i]) {
      StripAllSpace(s);
    } else {
      StripSpec(s);
    }
  }

  /** Python's `sub in s`. */
  predicate Contains(s: String, sub: String)
    decreases |s|
  {
    sub <= s || (s != [] && Contains(s[1..], sub))
  }

  /** `sub` occurs in `s` starting at position `i`. */
  predicate OccursAt(s: String, sub: String, i: int) {
    0 <= i <= |s| - |sub| && s[i..i + |sub|] == sub
  }

  /** `in` on strings means "occurs at some position". */
  lemma {:induction false} ContainsSpec(s: String, sub: String)
    ensures Contains(s, sub) <==> exists i :: OccursAt(s, sub, i)
    decreases |s|
  {
    if sub <= s {
      assert OccursAt(s, sub, 0);
    } else if s != [] {
      ContainsSpec(s[1..], sub);
      if exists i :: OccursAt(s[1..], sub, i) {
        var i :| OccursAt(s[1..], sub, i);
        assert s[i + 1..i + 1 + |sub|] == s[1..][i..i + |sub|];
        assert OccursAt(s, sub, i + 1);
      }
      if exists i :: OccursAt(s, sub, i) {
        var i :| OccursAt(s, sub, i);
        if i == 0 {
          assert false;
        } else {
          assert s[1..][i - 1..i - 1 + |sub|] == s[i..i + |sub|];
          assert OccursAt(s[1..], sub, i - 1);
        }
      }
    } else {
      assert forall i :: !OccursAt(s, sub, i);
    }
  }

  /** A one-character needle occurs exactly when that character does. */
  lemma ContainsChar(s: String, c: char)
    ensures Contains(s, [c]) <==> c in s
  {
    ContainsSpec(s, [c]);
    if c in s {
      var i :| 0 <= i < |s| && s[i] == c;
      assert s[i..i + 1] == [c];
      assert OccursAt(s, [c], i);
    }
    if Contains(s, [c]) {
      var i :| OccursAt(s, [c], i);
      assert s[i] == s[i..i + 1][0];
    }
  }

  function LowerChar(c: char): char {
    if 'A' <= c <= 'Z' then (c as int + 32) as char else c
  }

  /** `s.lower()`, restricted to ASCII letters. */
  function Lower(s: String): (r: String)
    ensures |r| == |s|
  {
    seq(|s|, i requires 0 <= i < |s| => LowerChar(s[i]))
  }

  /** A non-empty run of non-whitespace characters. */
  predicate IsWord(w: String) {
    w != [] && forall i :: 0 <= i < |w| ==> !IsSpace(w[i])
  }

  /** The longest prefix of `s` without whitespace. */
  function TakeWord(s: String): (w: String)
    ensures |w| <= |s| && w == s[..|w|]
    ensures forall i :: 0 <= i < |w| ==> !IsSpace(w[i])
    ensures |w| == |s| || IsSpace(s[|w|])
    ensures s != [] && !IsSpace(s[0]) ==> w != []
  {
    if s == [] || IsSpace(s[0]) then [] else [s[0]] + TakeWord(s[1..])
  }

  /** `s.split()`: the maximal runs of non-whitespace characters, in order. */
  function Words(s: String): seq<String>
    decreases |s|
  {
    var t := LStrip(s);
    if t == [] then [] else
    var w := TakeWord(t);
    [w] + Words(t[|w|..])
  }

  /** Every item of `split()` is a non-empty run of non-whitespace. */
  lemma {:induction false} WordsAreWords(s: String)
    ensures forall k :: 0 <= k < |Words(s)| ==> IsWord(Words(s)[k])
    decreases |s|
  {
    var t := LStrip(s);
    if t != [] {
      var w := TakeWord(t);
      WordsAreWords(t[|w|..]);
      var ws := Words(s);
      forall k | 0 <= k < |ws| ensures IsWord(ws[k]) {
        if k > 0 {
          assert ws[k] == Words(t[|w|..])[k - 1];
        }
      }
    }
  }

  /** `sep.join(parts)` */
  function Join(parts: seq<String>, sep: String): (r: String)
  {
    if parts == [] then []
    else if |parts| == 1 then parts[0]
    else parts[0] + sep + Join(parts[1..], sep)
  }

  /** `"".join(parts)` */
  function Concat(parts: seq<String>): String
  {
    if parts == [] then [] else parts[0] + Concat(parts[1..])
  }

  /** The summed length of `parts`. */
  function TotalLength(parts: seq<String>): nat
  {
    if parts == [] then 0 else |parts[0]| + TotalLength(parts[1..])
  }

  lemma {:induction false} ConcatAppend(a: seq<String>, b: seq<String>)
    ensures Concat(a + b) == Concat(a) + Concat(b)
  {
    if a == [] {
      assert a + b == b;
    } else {
      assert (a + b)[0] == a[0];
      assert (a + b)[1..] == a[1..] + b;
      ConcatAppend(a[1..], b);
    }
  }

  lemma {:induction false} TotalLengthAppend(a: seq<String>, b: seq<String>)
    ensures TotalLength(a + b) == TotalLength(a) + TotalLength(b)
  {
    if a == [] {
      assert a + b == b;
    } else {
      assert (a + b)[0] == a[0];
      assert (a + b)[1..] == a[1..] + b;
      TotalLengthAppend(a[1..], b);
    }
  }

  /** A separated join is as long as its parts plus one separator between
      each neighbouring pair. */
  lemma {:induction false} JoinLength(parts: seq<String>, sep: String)
    ensures parts != [] ==> |Join(parts, sep)| == TotalLength(parts) + |sep| * (|parts| - 1)
    ensures parts == [] ==> Join(parts, sep) == []
  {
    if |parts| > 1 {
      JoinLength(parts[1..], sep);
    }
  }

  /** Joining the words of a string with single spaces gives a string with no
      whitespace at either end, no two whitespace characters in a row, and no
      whitespace other than ' '. */
  lemma {:induction false} JoinWordsShape(ws: seq<String>)
    requires forall k :: 0 <= k < |ws| ==> IsWord(ws[k])
    ensures IsStripped(Join(ws, " "))
    ensures forall i :: 0 <= i < |Join(ws, " ")| && IsSpace(Join(ws, " ")[i]) ==> Join(ws, " ")[i] == ' '
    ensures forall i :: 0 <= i < |Join(ws, " ")| - 1 ==> !(IsSpace(Join(ws, " ")[i]) && IsSpace(Join(ws, " ")[i + 1]))
  {
    if |ws| > 1 {
      JoinWordsShape(ws[1..]);
      var rest := Join(ws[1..], " ");
      var j := Join(ws, " ");
      assert j == ws[0] + [' '] + rest;
      forall i | 0 <= i < |j| && IsSpace(j[i]) ensures j[i] == ' ' {
        if i > |ws[0]| {
          assert j[i] == rest[i - |ws[0]| - 1];
        }
      }
      forall i | 0 <= i < |j| - 1 ensures !(IsSpace(j[i]) && IsSpace(j[i + 1])) {
        if i > |ws[0]| {
          assert j[i] == rest[i - |ws[0]| - 1];
          assert j[i + 1] == rest[i - |ws[0]|];
        }
      }
    }
  }

  /** The first word of a word followed by whitespace (or nothing) is that
      word. */
  lemma TakeWordOf(w: String, rest: String)
    requires IsWord(w)
    requires rest == [] || IsSpace(rest[0])
    ensures TakeWord(w + rest) == w
  {
    var s := w + rest;
    var tw := TakeWord(s);
    assert forall i :: 0 <= i < |tw| ==> !IsSpace(s[i]);
    assert forall i :: 0 <= i < |w| ==> s[i] == w[i];
    assert rest != [] ==> s[|w|] == rest[0];
    if |tw| > |w| {
      assert false;
    }
    if |tw| < |w| {
      assert false;
    }
    assert tw == s[..|w|] == w;
  }

  /** `split()` undoes `' '.join` on words. */
  lemma {:induction false} WordsOfJoin(ws: seq<String>)
    requires forall k :: 0 <= k < |ws| ==> IsWord(ws[k])
    ensures Words(Join(ws, " ")) == ws
    decreases |ws|
  {
    if ws == [] {
    } else if |ws| == 1 {
      var w := ws[0];
      assert LStrip(w) == w;
      TakeWordOf(w, []);
      assert w + [] == w;
      assert w[|w|..] == [];
    } else {
      var w := ws[0];
      var rest := Join(ws[1..], " ");
      WordsOfJoin(ws[1..]);
      var s := Join(ws, " ");
      assert s == w + (" " + rest);
      assert LStrip(s) == s;
      TakeWordOf(w, " " + rest);
      assert s[|w|..] == " " + rest;
      var ws1 := ws[1..];
      assert rest == ws1[0] + (if |ws1| == 1 then [] else " " + Join(ws1[1..], " "));
      assert rest != [] && !IsSpace(rest[0]);
      assert LStrip(" " + rest) == LStrip(rest) == rest by {
        assert (" " + rest)[1..] == rest;
      }
    }
  }

  function DigitChar(d: nat): char
    requires d < 10
  {
    ['0', '1', '2', '3', '4', '5', '6', '7', '8', '9'][d]
  }

  /** `str(n)` for a natural number. */
  function NatToString(n: nat): (s: String)
    ensures s != [] && forall i :: 0 <= i < |s| ==> IsAsciiDigit(s[i])
  {
    if n < 10 then [DigitChar(n)] else NatToString(n / 10) + [DigitChar(n % 10)]
  }

  /** Python's `xs[:k]`: a non-negative `k` keeps at most `k` leading
      elements, a negative one drops `-k` trailing elements. */
  function PyTake<T>(xs: seq<T>, k: int): (r: seq<T>)
    ensures r <= xs
    ensures |r| == TakeLength(|xs|, k)
  {
    if k >= 0 then (if k < |xs| then xs[..k] else xs)
    else (if |xs| + k > 0 then xs[..|xs| + k] else [])
  }

  /** The length of `xs[:k]` for a list of length `n`: a negative `k`
      counts from the end. */
  function TakeLength(n: nat, k: int): (m: nat)
    ensures m <= n
    ensures k >= 0 ==> m <= k
  {
    if k >= 0 then (if k < n then k else n)
    else (if n + k > 0 then n + k else 0)
  }

  /** No item occurs twice. */
  predicate Distinct<T(==)>(xs: seq<T>) {
    forall i, j :: 0 <= i < j < |xs| ==> xs[i] != xs[j]
  }

  /** Python's floor division `a // b` (Dafny's `/` is Euclidean). */
  function FloorDiv(a: int, b: int): (q: int)
    requires b != 0
    ensures b > 0 ==> q * b <= a < q * b + b
    ensures b < 0 ==> q * b + b < a <= q * b
  {
    if b > 0 then a / b else (-a) / (-b)
  }

  lemma MulStep(a: int, b: int, d: int)
    requires d > 0 && a >= b + 1
    ensures a * d >= b * d + d
  {
    var k := a - b - 1;
    assert a * d == b * d + d + k * d;
  }

  /** Euclidean division has one quotient and remainder. */
  lemma DivUnique(n: int, d: int, q: int, r: int)
    requires d > 0 && 0 <= r < d && n == q * d + r
    ensures n / d == q && n % d == r
  {
    var q' := n / d;
    var r' := n % d;
    assert n == q' * d + r';
    if q' > q {
      MulStep(q', q, d);
      assert false;
    } else if q' < q {
      MulStep(q, q', d);
      assert false;
    }
  }

  lemma MulMono(a: int, b: int, d: int)
    requires d > 0 && a * d <= b * d
    ensures a <= b
  {
    if a > b {
      MulStep(a, b, d);
      assert false;
    }
  }

  lemma MulLe(a: int, b: int, d: int)
    requires d > 0 && a <= b
    ensures a * d <= b * d
  {
    if a < b {
      MulStep(b, a, d);
    }
  }

  lemma MulStrict(a: int, b: int, d: int)
    requires d > 0 && a * d < b * d
    ensures a < b
  {
    if a >= b {
      MulLe(b, a, d);
      assert false;
    }
  }

  // ---------------------------------------------------------------------
  // Insertion-ordered distinct items (the key order of a Python dict)
  // ---------------------------------------------------------------------

  /** The distinct items of `ws` in order of first occurrence: the key order
      of a Python dict filled from `ws`. */
  function Dedup(ws: seq<String>): seq<String> {
    if ws == [] then []
    else
      var d := Dedup(ws[..|ws| - 1]);
      if ws[|ws| - 1] in d then d else d + [ws[|ws| - 1]]
  }

  /** The position of the first `w` in `xs`, or `|xs|` when there is none. */
  function IndexOf(xs: seq<String>, w: String): (i: nat)
    ensures i <= |xs|
    ensures i < |xs| <==> w in xs
    ensures i < |xs| ==> xs[i] == w
  {
    if xs == [] then 0 else if xs[0] == w then 0 else 1 + IndexOf(xs[1..], w)
  }

  lemma {:induction false} IndexOfPrefix(p: seq<String>, w: String, x: String)
    requires x in p
    ensures IndexOf(p + [w], x) == IndexOf(p, x)
  {
    if p[0] != x {
      assert (p + [w])[1..] == p[1..] + [w];
      IndexOfPrefix(p[1..], w, x);
    }
  }

  lemma {:induction false} IndexOfLast(p: seq<String>, w: String)
    requires w !in p
    ensures IndexOf(p + [w], w) == |p|
  {
    if p != [] {
      assert (p + [w])[1..] == p[1..] + [w];
      IndexOfLast(p[1..], w);
    }
  }

  /** `Dedup` lists every item of `ws` exactly once, ordered by first
      occurrence in `ws`. */
  lemma {:induction false} DedupSpec(ws: seq<String>)
    ensures Distinct(Dedup(ws))
    ensures forall w :: w in Dedup(ws) <==> w in ws
    ensures forall a, b :: a in ws && b in ws ==>
      (IndexOf(Dedup(ws), a) < IndexOf(Dedup(ws), b) <==> IndexOf(ws, a) < IndexOf(ws, b))
  {
    if ws != [] {
      var n := |ws| - 1;
      var p := ws[..n];
      var x := ws[n];
      assert ws == p + [x];
      DedupSpec(p);
      var d := Dedup(p);
      forall a | a in p ensures IndexOf(ws, a) == IndexOf(p, a) {
        IndexOfPrefix(p, x, a);
      }
      if x !in d {
        IndexOfLast(p, x);
        IndexOfLast(d, x);
        forall a | a in d ensures IndexOf(d + [x], a) == IndexOf(d, a) {
          IndexOfPrefix(d, x, a);
        }
        assert Distinct(d + [x]) by {
          forall i, j | 0 <= i < j < |d + [x]| ensures (d + [x])[i] != (d + [x])[j] {
            if j == |d| {
              assert (d + [x])[i] == d[i];
              assert d[i] in d;
            }
          }
        }
      }
    }
  }
}
