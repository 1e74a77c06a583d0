/**
 * The JavaScript string operations the model relies on:
 * `String.prototype.trim` and `String.prototype.length` for the validator
 * and the form, and `split`, `join` and `padEnd` for the money codec.
 *
 * A Dafny `char` is a Unicode scalar value, whereas `length` counts UTF-16
 * code units, so a character outside the Basic Multilingual Plane counts twice.
 */
module JsText {

  /** The WhiteSpace and LineTerminator characters `trim` removes (ECMA-262, section 22.1.3.32). */
  predicate IsJsWhitespace(c: char) {
    || c == '\t' || c == '\n' || c == '\U{000B}' || c == '\U{000C}' || c == '\r' || c == ' '
    || c == '\U{00A0}' || c == '\U{1680}' || ('\U{2000}' <= c <= '\U{200A}')
    || c == '\U{2028}' || c == '\U{2029}' || c == '\U{202F}' || c == '\U{205F}'
    || c == '\U{3000}' || c == '\U{FEFF}'
  }

  predicate AllWhitespace(s: string) {
    forall k :: 0 <= k < |s| ==> IsJsWhitespace(s[k])
  }

  /** Drops the longest all-whitespace prefix. */
  function TrimStart(s: string): (r: string)
    ensures |r| <= |s| && r == s[|s| - |r|..]
    ensures AllWhitespace(s[..|s| - |r|])
    ensures |r| > 0 ==> !IsJsWhitespace(r[0])
    decreases |s|
  {
    if |s| > 0 && IsJsWhitespace(s[0]) then
      var r := TrimStart(s[1..]);
      assert s[..|s| - |r|] == [s[0]] + s[1..][..|s| - 1 - |r|];
      r
    else s
  }

  /** Drops the longest all-whitespace suffix. */
  function TrimEnd(s: string): (r: string)
    ensures |r| <= |s| && r == s[..|r|]
    ensures AllWhitespace(s[|r|..])
    ensures |r| > 0 ==> !IsJsWhitespace(r[|r| - 1])
    decreases |s|
  {
    if |s| > 0 && IsJsWhitespace(s[|s| - 1]) then TrimEnd(s[..|s| - 1]) else s
  }

  /** Trimming both ends leaves nothing exactly when the string is all whitespace. */
  lemma TrimBothEnds(s: string)
    ensures var t := TrimEnd(TrimStart(s));
      && (|t| == 0 <==> AllWhitespace(s))
      && (|t| > 0 ==> !IsJsWhitespace(t[0]))
  {
    var head := TrimStart(s);
    var t := TrimEnd(head);
    var i := |s| - |head|;
    if |t| == 0 {
      assert head[|t|..] == head;
      WhitespaceAround(s, i);
    } else {
      assert t[0] == head[0];
      assert s[i] == head[0];
    }
  }

  lemma WhitespaceAround(s: string, i: nat)
    requires i <= |s| && AllWhitespace(s[..i]) && AllWhitespace(s[i..])
    ensures AllWhitespace(s)
  {
    forall k | 0 <= k < |s| ensures IsJsWhitespace(s[k]) {
      if k < i {
        assert s[k] == s[..i][k];
      } else {
        assert s[k] == s[i..][k - i];
      }
    }
  }

  /** `t` is the piece of `s` starting at `i`, with only whitespace before and after it. */
  predicate Surrounds(s: string, i: int, t: string) {
    && 0 <= i && i + |t| <= |s| && t == s[i..i + |t|]
    && AllWhitespace(s[..i]) && AllWhitespace(s[i + |t|..])
  }

  /** Trimming both ends keeps a piece of `s` and removes only whitespace around it. */
  lemma TrimBothEndsIsInfix(s: string)
    ensures exists i :: Surrounds(s, i, TrimEnd(TrimStart(s)))
  {
    var head := TrimStart(s);
    PrefixOfSuffix(s, head, TrimEnd(head));
  }

  lemma PrefixOfSuffix(s: string, head: string, t: string)
    requires |head| <= |s| && head == s[|s| - |head|..] && AllWhitespace(s[..|s| - |head|])
    requires |t| <= |head| && t == head[..|t|] && AllWhitespace(head[|t|..])
    ensures Surrounds(s, |s| - |head|, t)
  {
    var i := |s| - |head|;
    assert s[i..i + |t|] == head[..|t|];
    assert s[i + |t|..] == head[|t|..];
  }

  /**
   * `s.trim()`: the middle of `s` with the whitespace on both sides removed,
   * starting and ending with something other than whitespace; nothing is left
   * exactly when `s` is all whitespace.
   */
  function Trim(s: string): (t: string)
    ensures |t| <= |s|
    ensures exists i :: Surrounds(s, i, t)
    ensures |t| == 0 <==> AllWhitespace(s)
    ensures |t| > 0 ==> !IsJsWhitespace(t[0]) && !IsJsWhitespace(t[|t| - 1])
  {
    TrimBothEnds(s);
    TrimBothEndsIsInfix(s);
    TrimEnd(TrimStart(s))
  }

  lemma {:induction false} TrimStartOfTrimmed(s: string)
    requires |s| == 0 || !IsJsWhitespace(s[0])
    ensures TrimStart(s) == s
  {
  }

  lemma {:induction false} TrimEndOfTrimmed(s: string)
    requires |s| == 0 || !IsJsWhitespace(s[|s| - 1])
    ensures TrimEnd(s) == s
  {
  }

  /** Trimming twice trims nothing more. */
  lemma TrimIdempotent(s: string)
    ensures Trim(Trim(s)) == Trim(s)
  {
    var t := Trim(s);
    TrimStartOfTrimmed(t);
    TrimEndOfTrimmed(t);
  }

  /** A string that neither starts nor ends with whitespace is its own trim. */
  lemma TrimOfUnpadded(s: string)
    requires |s| > 0 && !IsJsWhitespace(s[0]) && !IsJsWhitespace(s[|s| - 1])
    ensures Trim(s) == s
  {
    TrimStartOfTrimmed(s);
    TrimEndOfTrimmed(s);
  }

  /** Number of UTF-16 code units `c` occupies. */
  function CodeUnits(c: char): nat {
    if c as int > 0xFFFF then 2 else 1
  }

  /** `s.length` in JavaScript: the number of UTF-16 code units. */
  function Utf16Length(s: string): (n: nat)
    ensures |s| <= n <= 2 * |s|
    decreases |s|
  {
    if |s| == 0 then 0 else Utf16Length(s[..|s| - 1]) + CodeUnits(s[|s| - 1])
  }

  /** One character counts one code unit, or two outside the Basic Multilingual Plane. */
  lemma Utf16LengthOfChar(c: char)
    ensures Utf16Length([c]) == if c as int > 0xFFFF then 2 else 1
  {
    assert [c][..0] == [];
  }

  /** `length` adds up over concatenation, so it is the sum of every character's code units. */
  lemma {:induction false} Utf16LengthConcat(a: string, b: string)
    ensures Utf16Length(a + b) == Utf16Length(a) + Utf16Length(b)
    decreases |b|
  {
    if |b| > 0 {
      var n := |b| - 1;
      assert (a + b)[..|a + b| - 1] == a + b[..n];
      assert (a + b)[|a + b| - 1] == b[n];
      Utf16LengthConcat(a, b[..n]);
    } else {
      assert a + b == a;
    }
  }

  /** Within the Basic Multilingual Plane, `length` is the number of characters. */
  lemma {:induction false} Utf16LengthOfBmp(s: string)
    requires forall k :: 0 <= k < |s| ==> s[k] as int <= 0xFFFF
    ensures Utf16Length(s) == |s|
    decreases |s|
  {
    if |s| > 0 {
      Utf16LengthOfBmp(s[..|s| - 1]);
    }
  }

  // ---------------------------------------------------------------------
  // `split`, `join` and `padEnd`

  /** `s.split(sep)` for a one-character separator. */
  function Split(s: string, sep: char): (parts: seq<string>)
    ensures |parts| >= 1
    ensures forall i, j :: 0 <= i < |parts| && 0 <= j < |parts[i]| ==> parts[i][j] != sep
    decreases |s|
  {
    if |s| == 0 then [""]
    else
      var rest := Split(s[1..], sep);
      if s[0] == sep then [""] + rest
      else [[s[0]] + rest[0]] + rest[1..]
  }

  /** `parts.join(sep)`: the inverse of `Split`. */
  function Join(parts: seq<string>, sep: char): string
    requires |parts| >= 1
    decreases |parts|
  {
    if |parts| == 1 then parts[0] else parts[0] + [sep] + Join(parts[1..], sep)
  }

  /** Splitting and joining again gives back the original string. */
  lemma {:induction false} SplitJoin(s: string, sep: char)
    ensures Join(Split(s, sep), sep) == s
    decreases |s|
  {
    if |s| > 0 {
      SplitJoin(s[1..], sep);
      var rest := Split(s[1..], sep);
      if s[0] == sep {
        assert Split(s, sep)[1..] == rest;
      } else {
        var parts := Split(s, sep);
        if |rest| == 1 {
          assert parts == [[s[0]] + rest[0]];
        } else {
          assert parts[1..] == rest[1..];
          assert Join(rest, sep) == rest[0] + [sep] + Join(rest[1..], sep);
        }
        assert s == [s[0]] + s[1..];
      }
    }
  }

  lemma {:induction false} SplitWithoutSeparator(s: string, sep: char)
    requires forall i :: 0 <= i < |s| ==> s[i] != sep
    ensures Split(s, sep) == [s]
    decreases |s|
  {
    if |s| > 0 {
      SplitWithoutSeparator(s[1..], sep);
      assert [s[0]] + s[1..] == s;
    }
  }

  lemma {:induction false} SplitAtFirst(w: string, sep: char, f: string)
    requires forall i :: 0 <= i < |w| ==> w[i] != sep
    ensures Split(w + [sep] + f, sep) == [w] + Split(f, sep)
    decreases |w|
  {
    var s := w + [sep] + f;
    if |w| == 0 {
      assert s[1..] == f;
    } else {
      assert s[1..] == w[1..] + [sep] + f;
      SplitAtFirst(w[1..], sep, f);
      assert [w[0]] + w[1..] == w;
    }
  }

  /** `s.padEnd(n, c)` with a one-character filler. */
  function PadEnd(s: string, n: nat, c: char): (r: string)
    ensures |r| == if |s| >= n then |s| else n
    ensures r[..|s|] == s
    ensures forall i :: |s| <= i < |r| ==> r[i] == c
  {
    if |s| >= n then s else s + seq(n - |s|, _ => c)
  }
}
