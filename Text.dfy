/**
 * Small string tools shared by the report: singular/plural phrases, readers
 * that take a number or a phrase off the front of a string, and
 * `Array.prototype.join` with its inverse `String.prototype.split`.
 */
module Text {
  import opened Decimal

  datatype Option<T> = None | Some(value: T)

  /**
   * A counted word and the text after it: `stem`, then the plural "s" unless
   * the count `n` is exactly 1, then `suffix`.
   */
  function Phrase(stem: string, suffix: string, n: nat): (p: string)
    ensures |p| == |stem| + |suffix| + (if n == 1 then 0 else 1)
    ensures stem <= p && p[|p| - |suffix|..] == suffix
  {
    stem + (if n == 1 then "" else "s") + suffix
  }

  /**
   * Takes `stem + "s" + suffix` (plural, true) or `stem + suffix` (singular,
   * false) off the front of `s`, and returns which one it found and the rest.
   */
  function ReadPhrase(s: string, stem: string, suffix: string): Option<(bool, string)> {
    var plural := stem + "s" + suffix;
    var singular := stem + suffix;
    if plural <= s then Some((true, s[|plural|..]))
    else if singular <= s then Some((false, s[|singular|..]))
    else None
  }

  /** Takes a non-empty run of digits off the front of `s` and returns its value and the rest. */
  function ReadNumber(s: string): Option<(nat, string)> {
    var k := LeadingDigits(s);
    if k == 0 then None else Some((FromDecimal(s[..k]), s[k..]))
  }

  /** A phrase reads back with its plural flag set exactly when the count is not 1. */
  lemma ReadPhraseOf(stem: string, suffix: string, n: nat, rest: string)
    requires suffix != [] && suffix[0] != 's'
    ensures ReadPhrase(Phrase(stem, suffix, n) + rest, stem, suffix) == Some((n != 1, rest))
  {
    var s := Phrase(stem, suffix, n) + rest;
    var plural := stem + "s" + suffix;
    if n == 1 {
      assert s == stem + suffix + rest;
      assert s[|stem|] == suffix[0];
      assert plural[|stem|] == 's';
      assert !(plural <= s);
      assert s[|stem + suffix|..] == rest;
    } else {
      assert s == plural + rest;
      assert s[|plural|..] == rest;
    }
  }

  /** A rendered number followed by a non-digit reads back as that number. */
  lemma ReadNumberOf(n: nat, rest: string)
    requires rest == [] || !IsDigit(rest[0])
    ensures ReadNumber(ToDecimal(n) + rest) == Some((n, rest))
  {
    var d := ToDecimal(n);
    LeadingDigitsOfRun(d, rest);
    assert (d + rest)[..|d|] == d;
    assert (d + rest)[|d|..] == rest;
    FromToDecimal(n);
  }

  /**
   * The lines with `sep` between neighbours, as `Array.prototype.join` writes
   * them: no lines give "", the first line starts it and the last line ends it.
   */
  function Join(lines: seq<string>, sep: char): (s: string)
    ensures |lines| == 0 ==> s == ""
    ensures |lines| > 0 ==> lines[0] <= s
    ensures |lines| > 0 ==> |lines[|lines| - 1]| <= |s| && s[|s| - |lines[|lines| - 1]|..] == lines[|lines| - 1]
    decreases |lines|
  {
    if |lines| == 0 then ""
    else if |lines| == 1 then lines[0]
    else lines[0] + [sep] + Join(lines[1..], sep)
  }

  /**
   * The pieces between occurrences of `sep`, as `String.prototype.split`
   * gives them; "" gives [""].
   */
  function Split(s: string, sep: char): (pieces: seq<string>)
    ensures |pieces| > 0
    decreases |s|
  {
    if s == [] then [""]
    else
      var rest := Split(s[1..], sep);
      if s[0] == sep then [""] + rest else [[s[0]] + rest[0]] + rest[1..]
  }

  /** `s` does not contain `sep`. */
  predicate Free(s: string, sep: char) {
    sep !in s
  }

  /** A piece without the separator, then the separator, then anything: the piece comes off first. */
  lemma {:induction false} SplitPiece(a: string, sep: char, b: string)
    requires Free(a, sep)
    ensures Split(a + [sep] + b, sep) == [a] + Split(b, sep)
    decreases |a|
  {
    if a == [] {
      assert a + [sep] + b == [sep] + b;
      assert ([sep] + b)[1..] == b;
    } else {
      assert (a + [sep] + b)[1..] == a[1..] + [sep] + b;
      SplitPiece(a[1..], sep, b);
      assert [a[0]] + a[1..] == a;
    }
  }

  /** A string without the separator splits into itself alone. */
  lemma {:induction false} SplitFree(a: string, sep: char)
    requires Free(a, sep)
    ensures Split(a, sep) == [a]
    decreases |a|
  {
    if a != [] {
      SplitFree(a[1..], sep);
      assert [a[0]] + a[1..] == a;
    }
  }

  /** Splitting a join gives the lines back, when no line holds the separator. */
  lemma {:induction false} SplitJoin(lines: seq<string>, sep: char)
    requires |lines| > 0
    requires forall i :: 0 <= i < |lines| ==> Free(lines[i], sep)
    ensures Split(Join(lines, sep), sep) == lines
    decreases |lines|
  {
    if |lines| == 1 {
      SplitFree(lines[0], sep);
    } else {
      SplitJoin(lines[1..], sep);
      SplitPiece(lines[0], sep, Join(lines[1..], sep));
      assert [lines[0]] + lines[1..] == lines;
    }
  }
}
