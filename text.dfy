/** String helpers the report renderer relies on: the decimal rendering of a
    count in a template literal, markdown seen as a sequence of lines,
    `String.prototype.split` with a one-character separator, and the order that
    `Array.prototype.sort` uses on strings. */
module Text {

  // ---------------------------------------------------------------------
  // Decimal rendering of counts
  // ---------------------------------------------------------------------

  predicate IsDigit(c: char) {
    '0' <= c <= '9'
  }

  predicate AllDigits(s: string) {
    forall i :: 0 <= i < |s| ==> IsDigit(s[i])
  }

  function DigitChar(d: nat): (c: char)
    requires d < 10
    ensures IsDigit(c) && c as int - '0' as int == d
  {
    ('0' as int + d) as char
  }

  /** How `${n}` prints a non-negative integer below 10^21: its decimal
      digits, most significant first, with no leading zero. (From 10^21 on,
      JavaScript prints an exponent, which the model does not capture.) */
  function NatToString(n: nat): (s: string)
    ensures |s| > 0 && AllDigits(s)
    ensures s[0] == '0' <==> n == 0
    decreases n
  {
    if n < 10 then [DigitChar(n)] else NatToString(n / 10) + [DigitChar(n % 10)]
  }

  /** The value of a string of decimal digits. */
  function DecimalValue(s: string): nat
    requires AllDigits(s)
  {
    if s == [] then 0 else DecimalValue(s[..|s| - 1]) * 10 + (s[|s| - 1] as int - '0' as int)
  }

  /** Reading a rendered count back gives the count. */
  lemma {:induction false} DecimalRoundTrip(n: nat)
    ensures DecimalValue(NatToString(n)) == n
  {
    if n >= 10 {
      var s := NatToString(n);
      assert s[..|s| - 1] == NatToString(n / 10);
      DecimalRoundTrip(n / 10);
    }
  }

  /** Two counts print the same only when they are equal. */
  lemma NatToStringInjective(a: nat, b: nat)
    requires NatToString(a) == NatToString(b)
    ensures a == b
  {
    DecimalRoundTrip(a);
    DecimalRoundTrip(b);
  }

  // ---------------------------------------------------------------------
  // Markdown as lines
  // ---------------------------------------------------------------------

  /** A line of markdown: it holds no line break. */
  predicate OneLine(s: string) {
    '\n' !in s
  }

  predicate AllOneLine(lines: seq<string>) {
    forall k :: 0 <= k < |lines| ==> OneLine(lines[k])
  }

  /** The text made of `lines`, each terminated by a line break. */
  function JoinLines(lines: seq<string>): string
  {
    if lines == [] then "" else lines[0] + "\n" + JoinLines(lines[1..])
  }

  lemma {:induction false} JoinLinesAppend(a: seq<string>, b: seq<string>)
    ensures JoinLines(a + b) == JoinLines(a) + JoinLines(b)
  {
    if a != [] {
      assert (a + b)[0] == a[0];
      assert (a + b)[1..] == a[1..] + b;
      JoinLinesAppend(a[1..], b);
      calc {
        JoinLines(a + b);
        a[0] + "\n" + JoinLines(a[1..] + b);
        a[0] + "\n" + (JoinLines(a[1..]) + JoinLines(b));
      }
    } else {
      assert a + b == b;
    }
  }

  lemma JoinLinesCons(line: string, rest: seq<string>)
    ensures JoinLines([line] + rest) == line + "\n" + JoinLines(rest)
  {
    assert ([line] + rest)[1..] == rest;
  }

  lemma AllOneLineAppend(a: seq<string>, b: seq<string>)
    requires AllOneLine(a) && AllOneLine(b)
    ensures AllOneLine(a + b)
  {
    assert forall k :: |a| <= k < |a + b| ==> (a + b)[k] == b[k - |a|];
  }

  /** Appending one line to an accumulated text, as `markdown += line + "\n"` does. */
  lemma JoinLinesSnoc(a: seq<string>, line: string)
    ensures JoinLines(a + [line]) == JoinLines(a) + line + "\n"
  {
    JoinLinesAppend(a, [line]);
  }

  /** One `markdown += line + "\n"` step on a text made of `lines`. */
  lemma Emit(md: string, lines: seq<string>, line: string)
    requires md == JoinLines(lines)
    ensures md + line + "\n" == JoinLines(lines + [line])
  {
    JoinLinesSnoc(lines, line);
  }

  /** One `markdown += line + "\n\n"` step: the line, then an empty one. */
  lemma EmitBlank(md: string, lines: seq<string>, line: string)
    requires md == JoinLines(lines)
    ensures md + line + "\n\n" == JoinLines(lines + [line, ""])
  {
    JoinLinesSnoc(lines, line);
    JoinLinesSnoc(lines + [line], "");
    assert lines + [line] + [""] == lines + [line, ""];
    assert md + line + "\n\n" == (md + line + "\n") + "" + "\n";
  }

  /** Appending a block of lines already rendered as text. */
  lemma EmitAll(md: string, lines: seq<string>, block: string, more: seq<string>)
    requires md == JoinLines(lines) && block == JoinLines(more)
    ensures md + block == JoinLines(lines + more)
  {
    JoinLinesAppend(lines, more);
  }

  /** A character that is neither a line break nor in any line is not in the text. */
  lemma {:induction false} JoinLinesAvoids(c: char, lines: seq<string>)
    requires c != '\n'
    requires forall k :: 0 <= k < |lines| ==> c !in lines[k]
    ensures c !in JoinLines(lines)
  {
    if lines != [] {
      JoinLinesAvoids(c, lines[1..]);
    }
  }

  lemma {:induction false} JoinLinesSuffix(a: seq<string>, line: string)
    ensures |JoinLines(a + [line])| >= |line| + 1
    ensures JoinLines(a + [line])[|JoinLines(a + [line])| - |line| - 1..] == line + "\n"
  {
    JoinLinesSnoc(a, line);
  }

  // ---------------------------------------------------------------------
  // split with a one-character separator
  // ---------------------------------------------------------------------

  /** The index of the first `c` in `s`, or `|s|` when there is none. */
  function IndexOf(s: string, c: char): (i: nat)
    ensures i <= |s|
    ensures i < |s| ==> s[i] == c
    ensures forall k :: 0 <= k < i ==> s[k] != c
  {
    if s == [] then 0 else if s[0] == c then 0 else 1 + IndexOf(s[1..], c)
  }

  /** `s.split(sep)`: the pieces between occurrences of `sep`; there is always
      at least one piece, and a trailing separator yields a trailing "". */
  function Split(s: string, sep: char): (parts: seq<string>)
    ensures |parts| >= 1
    decreases |s|
  {
    var i := IndexOf(s, sep);
    if i == |s| then [s] else [s[..i]] + Split(s[i + 1..], sep)
  }

  lemma IndexOfAt(a: string, c: char, rest: string)
    requires c !in a
    ensures IndexOf(a + [c] + rest, c) == |a|
  {
    var s := a + [c] + rest;
    assert s[|a|] == c;
    assert forall k :: 0 <= k < |a| ==> s[k] == a[k] && a[k] != c;
  }

  /** Splitting at the first separator. */
  lemma SplitAt(a: string, c: char, rest: string)
    requires c !in a
    ensures Split(a + [c] + rest, c) == [a] + Split(rest, c)
  {
    var s := a + [c] + rest;
    IndexOfAt(a, c, rest);
    assert s[..|a|] == a;
    assert s[|a| + 1..] == rest;
  }

  /** Reading text back line by line: splitting the joined lines at line
      breaks gives the lines again, with the "" after the last break. */
  lemma {:induction false} SplitJoinLines(lines: seq<string>)
    requires AllOneLine(lines)
    ensures Split(JoinLines(lines), '\n') == lines + [""]
  {
    if lines != [] {
      var rest := JoinLines(lines[1..]);
      assert JoinLines(lines) == lines[0] + ['\n'] + rest;
      SplitAt(lines[0], '\n', rest);
      SplitJoinLines(lines[1..]);
      assert lines == [lines[0]] + lines[1..];
    }
  }

  // ---------------------------------------------------------------------
  // The default order of Array.prototype.sort on strings
  // ---------------------------------------------------------------------

  /** Lexicographic order on strings, comparing character by character. */
  predicate LessEq(a: string, b: string)
  {
    if a == [] then true
    else if b == [] then false
    else if a[0] != b[0] then a[0] < b[0]
    else LessEq(a[1..], b[1..])
  }

  lemma {:induction false} LessEqReflexive(a: string)
    ensures LessEq(a, a)
  {
    if a != [] {
      LessEqReflexive(a[1..]);
    }
  }

  lemma {:induction false} LessEqAntisymmetric(a: string, b: string)
    requires LessEq(a, b) && LessEq(b, a)
    ensures a == b
  {
    if a != [] && b != [] {
      LessEqAntisymmetric(a[1..], b[1..]);
      assert a == [a[0]] + a[1..];
      assert b == [b[0]] + b[1..];
    }
  }

  lemma {:induction false} LessEqTransitive(a: string, b: string, c: string)
    requires LessEq(a, b) && LessEq(b, c)
    ensures LessEq(a, c)
  {
    if a != [] && b != [] && c != [] && a[0] == b[0] && b[0] == c[0] {
      LessEqTransitive(a[1..], b[1..], c[1..]);
    }
  }

  lemma {:induction false} LessEqTotal(a: string, b: string)
    ensures LessEq(a, b) || LessEq(b, a)
  {
    if a != [] && b != [] && a[0] == b[0] {
      LessEqTotal(a[1..], b[1..]);
    }
  }

  predicate Sorted(s: seq<string>) {
    forall i, j :: 0 <= i < j < |s| ==> LessEq(s[i], s[j])
  }

  lemma SortedCons(h: string, r: seq<string>)
    requires Sorted(r)
    requires forall y :: y in r ==> LessEq(h, y)
    ensures Sorted([h] + r)
  {
    var s := [h] + r;
    forall i, j | 0 <= i < j < |s| ensures LessEq(s[i], s[j]) {
      if i == 0 {
        assert s[j] == r[j - 1];
        assert s[j] in r;
      } else {
        assert s[i] == r[i - 1] && s[j] == r[j - 1];
      }
    }
  }

  lemma LowerBoundOfInsert(h: string, x: string, t: seq<string>, r: seq<string>)
    requires Sorted([h] + t) && LessEq(h, x)
    requires multiset(r) == multiset(t) + multiset{x}
    ensures forall y :: y in r ==> LessEq(h, y)
  {
    forall y | y in r ensures LessEq(h, y) {
      assert y in multiset(r);
      if y != x {
        assert y in multiset(t);
        var j :| 0 <= j < |t| && t[j] == y;
        assert ([h] + t)[0] == h && ([h] + t)[j + 1] == y;
        assert LessEq(([h] + t)[0], ([h] + t)[j + 1]);
      }
    }
  }

  lemma LowerBoundOfSorted(x: string, s: seq<string>)
    requires Sorted(s) && s != [] && LessEq(x, s[0])
    ensures forall y :: y in s ==> LessEq(x, y)
  {
    forall y | y in s ensures LessEq(x, y) {
      var j :| 0 <= j < |s| && s[j] == y;
      if j > 0 {
        assert LessEq(s[0], s[j]);
        LessEqTransitive(x, s[0], s[j]);
      } else {
        assert y == s[0];
      }
    }
  }

  /** Insertion into a sorted sequence. */
  function Insert(x: string, s: seq<string>): (r: seq<string>)
    requires Sorted(s)
    ensures Sorted(r)
    ensures multiset(r) == multiset(s) + multiset{x}
  {
    if s == [] then [x]
    else if LessEq(x, s[0]) then
      LowerBoundOfSorted(x, s);
      SortedCons(x, s);
      [x] + s
    else
      LessEqTotal(x, s[0]);
      assert s == [s[0]] + s[1..];
      var r := Insert(x, s[1..]);
      LowerBoundOfInsert(s[0], x, s[1..], r);
      SortedCons(s[0], r);
      [s[0]] + r
  }

  /** What `names.sort()` leaves: the same names, ascending. */
  function Sort(s: seq<string>): (r: seq<string>)
    ensures Sorted(r)
    ensures multiset(r) == multiset(s)
    ensures |r| == |s|
  {
    if s == [] then []
    else
      assert s == [s[0]] + s[1..];
      var r := Insert(s[0], Sort(s[1..]));
      assert |r| == |multiset(r)|;
      r
  }

  /** Two sorted rearrangements of the same non-empty names start alike. */
  lemma SortedSameHead(a: seq<string>, b: seq<string>)
    requires Sorted(a) && Sorted(b) && a != [] && b != []
    requires multiset(a) == multiset(b)
    ensures a[0] == b[0]
  {
    assert a[0] in multiset(b);
    var j :| 0 <= j < |b| && b[j] == a[0];
    assert b[0] in multiset(a);
    var i :| 0 <= i < |a| && a[i] == b[0];
    if j > 0 { assert LessEq(b[0], b[j]); } else { LessEqReflexive(b[0]); }
    if i > 0 { assert LessEq(a[0], a[i]); } else { LessEqReflexive(a[0]); }
    LessEqAntisymmetric(a[0], b[0]);
  }

  lemma SortedTail(a: seq<string>)
    requires Sorted(a) && a != []
    ensures Sorted(a[1..])
  {
    forall i, j | 0 <= i < j < |a| - 1 ensures LessEq(a[1..][i], a[1..][j]) {
      assert a[1..][i] == a[i + 1] && a[1..][j] == a[j + 1];
    }
  }

  /** A sorted rearrangement is unique: any correct sorting of the same names
      gives the same sequence, whichever algorithm the runtime uses. */
  lemma {:induction false} SortedUnique(a: seq<string>, b: seq<string>)
    requires Sorted(a) && Sorted(b)
    requires multiset(a) == multiset(b)
    ensures a == b
    decreases |a|
  {
    assert |a| == |multiset(a)| == |multiset(b)| == |b|;
    if a != [] {
      SortedSameHead(a, b);
      assert a == [a[0]] + a[1..];
      assert b == [b[0]] + b[1..];
      assert multiset(a[1..]) == multiset(a) - multiset{a[0]};
      assert multiset(b[1..]) == multiset(b) - multiset{b[0]};
      SortedTail(a);
      SortedTail(b);
      SortedUnique(a[1..], b[1..]);
    }
  }

  /** Sorting keeps exactly the names it was given. */
  lemma SortKeepsNames(s: seq<string>, x: string)
    ensures x in Sort(s) <==> x in s
  {
    var r := Sort(s);
    assert x in r <==> x in multiset(r);
    assert x in s <==> x in multiset(s);
  }
}
