/** String helpers for the JavaScript string operations the core relies on:
    number interpolation in template literals, ASCII `toLowerCase`,
    `includes`, `charAt(0)`, `Array.prototype.join` and `String.prototype.split`. */
module Text {

  import opened Wrappers
  import opened Seqs

  predicate IsDigit(c: char)
  {
    '0' <= c <= '9'
  }

  function DigitChar(d: nat): (c: char)
    requires d < 10
    ensures IsDigit(c)
  {
    ['0', '1', '2', '3', '4', '5', '6', '7', '8', '9'][d]
  }

  function DigitValue(c: char): (d: nat)
    requires IsDigit(c)
    ensures d < 10
  {
    (c as int - '0' as int) as nat
  }

  lemma DigitRoundTrip(d: nat)
    requires d < 10
    ensures DigitValue(DigitChar(d)) == d
  {
  }

  /** Decimal digits of a natural number, most significant first, with no
      leading zero. */
  function NatToString(n: nat): (s: string)
    ensures |s| >= 1
    ensures forall i :: 0 <= i < |s| ==> IsDigit(s[i])
  {
    if n < 10 then [DigitChar(n)] else NatToString(n / 10) + [DigitChar(n % 10)]
  }

  /** `${n}` for an integer `n`: its decimal form, with a leading '-' when
      negative. */
  function DecimalString(n: int): (s: string)
    ensures |s| >= 1
    ensures ' ' !in s
  {
    if n < 0 then "-" + NatToString(-n) else NatToString(n)
  }

  function AllDigits(s: string): bool
  {
    forall i :: 0 <= i < |s| ==> IsDigit(s[i])
  }

  /** Value of a non-empty run of decimal digits. */
  function DigitsValue(s: string): nat
    requires |s| >= 1 && AllDigits(s)
  {
    if |s| == 1 then DigitValue(s[0])
    else DigitsValue(s[..|s| - 1]) * 10 + DigitValue(s[|s| - 1])
  }

  /** Reads an optionally negative decimal integer; the reference parser for
      `DecimalString`. */
  function ParseDecimal(s: string): Option<int>
  {
    if |s| >= 2 && s[0] == '-' && AllDigits(s[1..]) then Some(-(DigitsValue(s[1..]) as int))
    else if |s| >= 1 && AllDigits(s) then Some(DigitsValue(s))
    else None
  }

  lemma {:induction false} NatToStringValue(n: nat)
    ensures DigitsValue(NatToString(n)) == n
  {
    if n >= 10 {
      var s := NatToString(n);
      var prefix := NatToString(n / 10);
      assert s[..|s| - 1] == prefix;
      NatToStringValue(n / 10);
      DigitRoundTrip(n % 10);
    } else {
      DigitRoundTrip(n);
    }
  }

  /** Reading back the decimal form of an integer recovers the integer. */
  lemma DecimalRoundTrip(n: int)
    ensures ParseDecimal(DecimalString(n)) == Some(n)
  {
    var s := DecimalString(n);
    if n < 0 {
      var digits := NatToString(-n);
      assert s[1..] == digits;
      assert AllDigits(digits);
      NatToStringValue(-n);
    } else {
      assert IsDigit(s[0]);
      assert AllDigits(s);
      NatToStringValue(n);
    }
  }

  /** JavaScript's `toLowerCase`, on the ASCII letters. */
  function LowerChar(c: char): char
  {
    if 'A' <= c <= 'Z' then (c as int - 'A' as int + 'a' as int) as char else c
  }

  function Lower(s: string): (r: string)
    ensures |r| == |s|
    ensures forall i :: 0 <= i < |s| ==> r[i] == LowerChar(s[i])
  {
    seq(|s|, i requires 0 <= i < |s| => LowerChar(s[i]))
  }

  lemma LowerIdempotent(s: string)
    ensures Lower(Lower(s)) == Lower(s)
  {
  }

  lemma LowerAppend(a: string, b: string)
    ensures Lower(a + b) == Lower(a) + Lower(b)
  {
  }

  predicate IsPrefix(p: string, s: string)
  {
    |p| <= |s| && s[..|p|] == p
  }

  /** `needle` occurs in `hay` starting at index `k`. */
  predicate OccursAt(hay: string, needle: string, k: int)
  {
    0 <= k && k + |needle| <= |hay| && hay[k..k + |needle|] == needle
  }

  /** JavaScript's `String.prototype.includes`: `needle` occurs at some
      position of `hay`. */
  predicate Contains(hay: string, needle: string)
    decreases |hay|
  {
    IsPrefix(needle, hay) || (hay != [] && Contains(hay[1..], needle))
  }

  /** The positional reading of `Contains`. */
  lemma {:induction false} ContainsAt(hay: string, needle: string)
    ensures Contains(hay, needle) <==> exists k :: OccursAt(hay, needle, k)
    decreases |hay|
  {
    if IsPrefix(needle, hay) {
      assert OccursAt(hay, needle, 0);
    }
    if hay != [] {
      ContainsAt(hay[1..], needle);
      if exists k :: OccursAt(hay[1..], needle, k) {
        var k :| OccursAt(hay[1..], needle, k);
        assert hay[k + 1..k + 1 + |needle|] == hay[1..][k..k + |needle|];
        assert OccursAt(hay, needle, k + 1);
      }
      if exists k :: OccursAt(hay, needle, k) {
        var k :| OccursAt(hay, needle, k);
        if k > 0 {
          assert hay[1..][k - 1..k - 1 + |needle|] == hay[k..k + |needle|];
          assert OccursAt(hay[1..], needle, k - 1);
        }
      }
    } else {
      if exists k :: OccursAt(hay, needle, k) {
        var k :| OccursAt(hay, needle, k);
        assert needle == [];
      }
    }
  }

  lemma EmptyContained(hay: string)
    ensures Contains(hay, "")
  {
  }

  /** A string containing `a + b` contains `a`. */
  lemma ContainsPrefixOfNeedle(hay: string, a: string, b: string)
    requires Contains(hay, a + b)
    ensures Contains(hay, a)
  {
    ContainsAt(hay, a + b);
    var k :| OccursAt(hay, a + b, k);
    assert hay[k..k + |a|] == hay[k..k + |a + b|][..|a|] == a;
    assert OccursAt(hay, a, k);
    ContainsAt(hay, a);
  }

  /** `charAt(0)`: the first character, or the empty string. */
  function FirstChar(s: string): (r: string)
    ensures |r| == if s == [] then 0 else 1
    ensures IsPrefix(r, s)
  {
    if s == [] then "" else s[..1]
  }

  /** `Array.prototype.join(sep)`. */
  function Join(parts: seq<string>, sep: string): string
  {
    if parts == [] then ""
    else if |parts| == 1 then parts[0]
    else parts[0] + sep + Join(parts[1..], sep)
  }

  /** Every part of a joined sequence occurs in the joined text. */
  lemma {:induction false} JoinContainsParts(parts: seq<string>, sep: string, i: nat)
    requires i < |parts|
    ensures Contains(Join(parts, sep), parts[i])
  {
    if |parts| == 1 {
      assert OccursAt(Join(parts, sep), parts[i], 0);
      ContainsAt(Join(parts, sep), parts[i]);
    } else if i == 0 {
      assert OccursAt(Join(parts, sep), parts[0], 0);
      ContainsAt(Join(parts, sep), parts[0]);
    } else {
      JoinContainsParts(parts[1..], sep, i - 1);
      ContainsInSuffix(parts[0] + sep, Join(parts[1..], sep), parts[i]);
    }
  }

  /** Text containing `needle` still contains it after a prefix is put in
      front. */
  lemma ContainsInSuffix(a: string, b: string, needle: string)
    requires Contains(b, needle)
    ensures Contains(a + b, needle)
  {
    ContainsAt(b, needle);
    var k :| OccursAt(b, needle, k);
    assert (a + b)[|a| + k..|a| + k + |needle|] == b[k..k + |needle|];
    assert OccursAt(a + b, needle, |a| + k);
    ContainsAt(a + b, needle);
  }

  /** A character that is in no part and not in the separator is not in the
      joined text. */
  lemma {:induction false} JoinAvoids(parts: seq<string>, sep: string, c: char)
    requires c !in sep
    requires forall i :: 0 <= i < |parts| ==> c !in parts[i]
    ensures c !in Join(parts, sep)
  {
    if |parts| > 1 {
      JoinAvoids(parts[1..], sep, c);
    }
  }

  /** Joining with ", " puts exactly one comma between consecutive parts, so
      when no part contains a comma the joined text has one comma fewer than
      there are parts. */
  lemma {:induction false} JoinCommas(parts: seq<string>)
    requires forall i :: 0 <= i < |parts| ==> Occurrences(parts[i], ',') == 0
    ensures Occurrences(Join(parts, ", "), ',') == if parts == [] then 0 else |parts| - 1
  {
    if |parts| > 1 {
      JoinCommas(parts[1..]);
      OccurrencesAppend(parts[0], ", ", ',');
      OccurrencesAppend(parts[0] + ", ", Join(parts[1..], ", "), ',');
    }
  }

  /** `s.indexOf(sep)`, reading "absent" as `|s|`: the first position where
      `sep` occurs. */
  function IndexOf(s: string, sep: string): (k: nat)
    requires |sep| > 0
    ensures k <= |s|
    ensures k < |s| ==> OccursAt(s, sep, k)
    ensures k == |s| ==> forall j :: 0 <= j < |s| ==> !OccursAt(s, sep, j)
    decreases |s|
  {
    if |s| < |sep| then |s|
    else if IsPrefix(sep, s) then 0
    else
      var k := IndexOf(s[1..], sep);
      OccursInTail(s, sep);
      if k < |s[1..]| then k + 1 else |s|
  }

  /** The occurrences in the tail are the later occurrences in `s`, shifted
      by one. */
  lemma OccursInTail(s: string, sep: string)
    requires s != []
    ensures forall j :: 0 < j ==> (OccursAt(s, sep, j) <==> OccursAt(s[1..], sep, j - 1))
  {
    forall j | 0 < j
      ensures OccursAt(s, sep, j) <==> OccursAt(s[1..], sep, j - 1)
    {
      if j + |sep| <= |s| {
        assert s[1..][j - 1..j - 1 + |sep|] == s[j..j + |sep|];
      }
    }
  }

  /** `s.split(sep)` for a non-empty separator: the pieces between the
      occurrences of `sep`, found from the left without overlap. Joining the
      pieces back with `sep` gives `s` again. */
  function Split(s: string, sep: string): (parts: seq<string>)
    requires |sep| > 0
    ensures |parts| >= 1
    ensures Join(parts, sep) == s
    decreases |s|
  {
    var k := IndexOf(s, sep);
    if k == |s| then [s]
    else
      var rest := Split(s[k + |sep|..], sep);
      assert ([s[..k]] + rest)[1..] == rest;
      assert s == s[..k] + sep + s[k + |sep|..];
      [s[..k]] + rest
  }

  /** When the separator's character at `j` is in no part and not earlier in
      the separator, the first separator in `p + sep + rest` is the one right
      after `p`. */
  lemma {:induction false} IndexOfAfter(p: string, sep: string, rest: string, j: nat)
    requires j < |sep| && sep[j] !in sep[..j] && sep[j] !in p
    ensures IndexOf(p + sep + rest, sep) == |p|
    decreases |p|
  {
    var s := p + sep + rest;
    if p == [] {
      assert s[..|sep|] == sep;
    } else {
      assert s[j] != sep[j] by {
        if j < |p| {
          assert s[j] == p[j];
        } else {
          assert s[j] == sep[..j][j - |p|];
        }
      }
      assert s[1..] == p[1..] + sep + rest;
      IndexOfAfter(p[1..], sep, rest, j);
    }
  }

  /** A text without the separator's character at `j` holds no separator. */
  lemma {:induction false} IndexOfAbsent(p: string, sep: string, j: nat)
    requires j < |sep| && sep[j] !in p
    ensures IndexOf(p, sep) == |p|
    decreases |p|
  {
    if |p| >= |sep| {
      assert p[j] != sep[j];
      IndexOfAbsent(p[1..], sep, j);
    }
  }

  /** Splitting a joined text gives the parts back, provided one character of
      the separator (its first occurrence, at `j`) appears in no part. */
  lemma {:induction false} SplitJoin(parts: seq<string>, sep: string, j: nat)
    requires parts != []
    requires j < |sep| && sep[j] !in sep[..j]
    requires forall i :: 0 <= i < |parts| ==> sep[j] !in parts[i]
    ensures Split(Join(parts, sep), sep) == parts
  {
    if |parts| == 1 {
      IndexOfAbsent(parts[0], sep, j);
    } else {
      var rest := Join(parts[1..], sep);
      var s := parts[0] + sep + rest;
      IndexOfAfter(parts[0], sep, rest, j);
      assert s[..|parts[0]|] == parts[0];
      assert s[|parts[0]| + |sep|..] == rest;
      SplitJoin(parts[1..], sep, j);
    }
  }

  /** Split on every space character, like `s.split(" ")`. */
  function Words(s: string): (ws: seq<string>)
    ensures |ws| >= 1
  {
    Split(s, " ")
  }

  /** Space-free words joined by single spaces split back into themselves. */
  lemma WordsOfJoin(ws: seq<string>)
    requires ws != []
    requires forall i :: 0 <= i < |ws| ==> ' ' !in ws[i]
    ensures Words(Join(ws, " ")) == ws
  {
    SplitJoin(ws, " ", 0);
  }

  lemma WordsOfTwo(a: string, b: string)
    requires ' ' !in a && ' ' !in b
    ensures Words(a + " " + b) == [a, b]
  {
    assert Join([a, b], " ") == a + " " + Join([b], " ");
    WordsOfJoin([a, b]);
  }

  lemma WordsOfFour(a: string, b: string, c: string, d: string)
    requires ' ' !in a && ' ' !in b && ' ' !in c && ' ' !in d
    ensures Words(a + " " + (b + " " + (c + " " + d))) == [a, b, c, d]
  {
    var ws := [a, b, c, d];
    assert Join(ws[2..], " ") == c + " " + d by {
      assert ws[2..][1..] == [d];
    }
    assert Join(ws[1..], " ") == b + " " + (c + " " + d) by {
      assert ws[1..][1..] == ws[2..];
    }
    assert Join(ws, " ") == a + " " + (b + " " + (c + " " + d));
    WordsOfJoin(ws);
  }
}
