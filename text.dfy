/** The JavaScript string operations the sources rely on, over `seq<char>`:
    white space as `\s` and `String.prototype.trim` see it, `toLowerCase` on
    ASCII letters, `startsWith`, `includes`, `split(/\s+/)` and counting a
    character. */
module Text {

  /** A character JavaScript treats as white space in `\s` and in `trim`
      (the WhiteSpace and LineTerminator code points of ECMAScript). */
  predicate IsSpace(c: char) {
    c == '\t' || c == '\n' || c == '\U{000B}' || c == '\U{000C}' || c == '\r' || c == ' '
    || c == '\U{00A0}' || c == '\U{1680}' || ('\U{2000}' <= c <= '\U{200A}')
    || c == '\U{2028}' || c == '\U{2029}' || c == '\U{202F}' || c == '\U{205F}'
    || c == '\U{3000}' || c == '\U{FEFF}'
  }

  /** A character of the regular-expression class `\w`: `[A-Za-z0-9_]`. */
  predicate IsWordChar(c: char) {
    ('a' <= c <= 'z') || ('A' <= c <= 'Z') || ('0' <= c <= '9') || c == '_'
  }

  predicate IsUpper(c: char) {
    'A' <= c <= 'Z'
  }

  function LowerChar(c: char): char {
    if IsUpper(c) then (c as int + 32) as char else c
  }

  /** `s.toLowerCase()` on the ASCII letters; every other character is kept. */
  function ToLower(s: string): string {
    seq(|s|, i requires 0 <= i < |s| => LowerChar(s[i]))
  }

  /** Lower-casing is idempotent and keeps the length. */
  lemma ToLowerIdempotent(s: string)
    ensures |ToLower(s)| == |s|
    ensures ToLower(ToLower(s)) == ToLower(s)
  {
  }

  /** Lower-casing commutes with taking a slice. */
  lemma ToLowerSlice(s: string, i: nat, j: nat)
    requires i <= j <= |s|
    ensures ToLower(s)[i..j] == ToLower(s[i..j])
  {
  }

  /** `s.length`: JavaScript counts UTF-16 code units, two for a character
      outside the Basic Multilingual Plane (most emoji). */
  function Utf16Length(s: string): (n: nat)
    ensures |s| <= n <= 2 * |s|
  {
    if s == [] then 0 else (if s[0] as int > 0xFFFF then 2 else 1) + Utf16Length(s[1..])
  }

  /** The code units of a concatenation are those of its parts. */
  lemma {:induction false} Utf16LengthAppend(a: string, b: string)
    ensures Utf16Length(a + b) == Utf16Length(a) + Utf16Length(b)
  {
    if a != [] {
      assert (a + b)[0] == a[0];
      assert (a + b)[1..] == a[1..] + b;
      Utf16LengthAppend(a[1..], b);
    } else {
      assert a + b == b;
    }
  }

  /** A prefix has no more code units than the string, and a proper prefix
      has fewer. */
  lemma Utf16LengthPrefix(a: string, b: string)
    requires a <= b
    ensures Utf16Length(a) <= Utf16Length(b)
    ensures a != b ==> Utf16Length(a) < Utf16Length(b)
  {
    assert b == a + b[|a|..];
    Utf16LengthAppend(a, b[|a|..]);
  }

  /** A string inside the Basic Multilingual Plane has one code unit per character. */
  lemma {:induction false} Utf16LengthBmp(s: string)
    requires forall k :: 0 <= k < |s| ==> s[k] as int <= 0xFFFF
    ensures Utf16Length(s) == |s|
  {
    if s != [] {
      assert forall k :: 0 <= k < |s[1..]| ==> s[1..][k] == s[k + 1];
      Utf16LengthBmp(s[1..]);
    }
  }

  /** Lower-casing changes only ASCII letters, so it keeps the code-unit length. */
  lemma {:induction false} Utf16LengthLower(s: string)
    ensures Utf16Length(ToLower(s)) == Utf16Length(s)
  {
    if s != [] {
      assert ToLower(s)[0] == LowerChar(s[0]);
      assert ToLower(s)[1..] == ToLower(s[1..]);
      Utf16LengthLower(s[1..]);
    }
  }

  /** `s.startsWith(p)`. */
  predicate StartsWith(s: string, p: string) {
    p <= s
  }

  /** `sub` occurs in `s` starting at position `i`. */
  predicate OccursAt(s: string, sub: string, i: nat) {
    i + |sub| <= |s| && s[i..i + |sub|] == sub
  }

  /** `s.includes(sub)`: `sub` occurs in `s` at some position. */
  predicate Contains(s: string, sub: string)
    decreases |s|
  {
    sub <= s || (s != [] && Contains(s[1..], sub))
  }

  /** `Contains` holds exactly when `sub` occurs in `s` at some position. */
  lemma {:induction false} ContainsAt(s: string, sub: string)
    ensures Contains(s, sub) <==> exists i: nat :: OccursAt(s, sub, i)
    decreases |s|
  {
    if s != [] {
      ContainsAt(s[1..], sub);
      if Contains(s[1..], sub) {
        var i: nat :| OccursAt(s[1..], sub, i);
        assert OccursAt(s, sub, i + 1);
      }
      if exists i: nat :: OccursAt(s, sub, i) {
        var i: nat :| OccursAt(s, sub, i);
        if i == 0 {
          assert sub <= s;
        } else {
          assert OccursAt(s[1..], sub, i - 1);
        }
      }
      if sub <= s {
        assert OccursAt(s, sub, 0);
      }
    } else {
      if exists i: nat :: OccursAt(s, sub, i) {
        var i: nat :| OccursAt(s, sub, i);
        assert sub == [];
      }
      if sub <= s {
        assert OccursAt(s, sub, 0);
      }
    }
  }

  /** A string only contains strings no longer than itself. */
  lemma {:induction false} ContainsLength(s: string, sub: string)
    ensures Contains(s, sub) ==> |sub| <= |s|
    decreases |s|
  {
    if s != [] {
      ContainsLength(s[1..], sub);
    }
  }

  /** `s` with its leading white space removed. */
  function TrimStart(s: string): (r: string)
    ensures |r| <= |s| && r == s[|s| - |r|..]
    ensures r == [] || !IsSpace(r[0])
    ensures forall i :: 0 <= i < |s| - |r| ==> IsSpace(s[i])
    decreases |s|
  {
    if s != [] && IsSpace(s[0]) then TrimStart(s[1..]) else s
  }

  /** `s` with its trailing white space removed. */
  function TrimEnd(s: string): (r: string)
    ensures r <= s
    ensures r == [] || !IsSpace(r[|r| - 1])
    ensures forall i :: |r| <= i < |s| ==> IsSpace(s[i])
    decreases |s|
  {
    if s != [] && IsSpace(s[|s| - 1]) then TrimEnd(s[..|s| - 1]) else s
  }

  /** `s.trim()`: the slice of `s` left once the white space at both ends is gone. */
  function Trim(s: string): (r: string)
    ensures OccursAt(s, r, |s| - |TrimStart(s)|)
    ensures r == [] || (!IsSpace(r[0]) && !IsSpace(r[|r| - 1]))
  {
    TrimSlice(s);
    TrimEnds(s);
    TrimEnd(TrimStart(s))
  }

  lemma TrimSlice(s: string)
    ensures OccursAt(s, TrimEnd(TrimStart(s)), |s| - |TrimStart(s)|)
  {
    var t := TrimStart(s);
    SliceOfSuffix(s, |s| - |t|, |TrimEnd(t)|);
  }

  lemma TrimEnds(s: string)
    ensures var r := TrimEnd(TrimStart(s)); r == [] || (!IsSpace(r[0]) && !IsSpace(r[|r| - 1]))
  {
    var t := TrimStart(s);
    var r := TrimEnd(t);
    if r != [] {
      assert r[0] == t[0];
    }
  }

  lemma SliceOfSuffix(s: string, i: nat, n: nat)
    requires i + n <= |s|
    ensures s[i..][..n] == s[i..i + n]
  {
  }

  /** Trimming only removes characters. */
  lemma TrimChars(s: string)
    ensures forall c :: c in Trim(s) ==> c in s
  {
    SliceChars(s, |s| - |TrimStart(s)|, |s| - |TrimStart(s)| + |Trim(s)|);
  }

  lemma SliceChars(s: string, i: nat, j: nat)
    requires i <= j <= |s|
    ensures forall c :: c in s[i..j] ==> c in s
  {
    forall c | c in s[i..j] ensures c in s {
      var k :| 0 <= k < j - i && s[i..j][k] == c;
      assert s[i + k] == c;
    }
  }

  /** The trim is empty exactly when the string is all white space. */
  lemma TrimEmpty(s: string)
    ensures Trim(s) == [] <==> forall k :: 0 <= k < |s| ==> IsSpace(s[k])
  {
    var t := TrimStart(s);
    if Trim(s) == [] {
      assert |TrimEnd(t)| == 0;
    }
  }

  /** A string with no white space at either end is its own trim. */
  lemma TrimNoSpace(s: string)
    requires s == [] || (!IsSpace(s[0]) && !IsSpace(s[|s| - 1]))
    ensures Trim(s) == s
  {
  }

  /** Trimming is idempotent. */
  lemma TrimIdempotent(s: string)
    ensures Trim(Trim(s)) == Trim(s)
  {
    TrimNoSpace(Trim(s));
  }

  /** `s` with its leading run of white space removed (the separator `\s+` consumes it). */
  function DropSpaces(s: string): (r: string)
    ensures |r| <= |s|
    ensures s != [] && IsSpace(s[0]) ==> |r| < |s|
    decreases |s|
  {
    if s != [] && IsSpace(s[0]) then DropSpaces(s[1..]) else s
  }

  /** `s.split(/\s+/)`, with `cur` the token being read: a maximal run of white
      space separates two tokens, so a string that starts (ends) with white
      space has an empty first (last) token, and the empty string splits into `[""]`. */
  function SplitFrom(s: string, cur: string): (r: seq<string>)
    ensures |r| >= 1
    decreases |s|
  {
    if s == [] then [cur]
    else if IsSpace(s[0]) then [cur] + SplitFrom(DropSpaces(s), "")
    else SplitFrom(s[1..], cur + [s[0]])
  }

  function SplitWs(s: string): (r: seq<string>)
    ensures |r| >= 1
  {
    SplitFrom(s, "")
  }

  /** The first token of a split starts the string; it is empty exactly when
      the string is empty or starts with white space. */
  lemma {:induction false} SplitFromFirst(s: string, cur: string)
    requires forall k :: 0 <= k < |cur| ==> !IsSpace(cur[k])
    ensures cur <= SplitFrom(s, cur)[0]
    ensures SplitFrom(s, cur)[0] <= cur + s
    ensures (SplitFrom(s, cur)[0] == cur) <==> (s == [] || IsSpace(s[0]))
    ensures forall k :: 0 <= k < |SplitFrom(s, cur)[0]| ==> !IsSpace(SplitFrom(s, cur)[0][k])
    decreases |s|
  {
    if s != [] && !IsSpace(s[0]) {
      SplitFromFirst(s[1..], cur + [s[0]]);
      assert cur + s == (cur + [s[0]]) + s[1..];
    }
  }

  /** The tokens of a split never contain white space. */
  lemma {:induction false} SplitFromTokens(s: string, cur: string)
    requires forall k :: 0 <= k < |cur| ==> !IsSpace(cur[k])
    ensures forall t, k :: t in SplitFrom(s, cur) && 0 <= k < |t| ==> !IsSpace(t[k])
    decreases |s|
  {
    if s == [] {
    } else if IsSpace(s[0]) {
      SplitFromTokens(DropSpaces(s), "");
    } else {
      SplitFromTokens(s[1..], cur + [s[0]]);
    }
  }

  /** The last token of a split is empty when the string ends with white space. */
  lemma {:induction false} SplitFromLast(s: string, cur: string)
    requires s != [] && IsSpace(s[|s| - 1])
    ensures SplitFrom(s, cur)[|SplitFrom(s, cur)| - 1] == ""
    decreases |s|
  {
    if IsSpace(s[0]) {
      var d := DropSpaces(s);
      DropSpacesSuffix(s);
      if d != [] {
        SplitFromLast(d, "");
      }
    } else {
      assert |s| > 1;
      SplitFromLast(s[1..], cur + [s[0]]);
    }
  }

  lemma {:induction false} DropSpacesSuffix(s: string)
    ensures DropSpaces(s) == s[|s| - |DropSpaces(s)|..]
    decreases |s|
  {
    if s != [] && IsSpace(s[0]) {
      DropSpacesSuffix(s[1..]);
    }
  }

  /** The number of occurrences of `c` in `s` (what `(s.match(/c/g) || []).length` counts). */
  function CountChar(s: string, c: char): (n: nat)
    ensures n <= |s|
  {
    if s == [] then 0 else (if s[0] == c then 1 else 0) + CountChar(s[1..], c)
  }

  /** Counting a character is counting its copies in the multiset of the string's characters. */
  lemma {:induction false} CountCharMultiset(s: string, c: char)
    ensures CountChar(s, c) == multiset(s)[c]
  {
    if s != [] {
      CountCharMultiset(s[1..], c);
      assert s == [s[0]] + s[1..];
    }
  }

  /** `s.repeat(n)`. */
  function Repeat(s: string, n: nat): (r: string)
    ensures |r| == n * |s|
  {
    if n == 0 then "" else s + Repeat(s, n - 1)
  }

  lemma {:induction false} RepeatChar(c: char, n: nat)
    ensures |Repeat([c], n)| == n
    ensures forall k :: 0 <= k < n ==> Repeat([c], n)[k] == c
  {
    if n > 0 {
      RepeatChar(c, n - 1);
    }
  }

  /** A decimal digit. */
  predicate IsDigit(c: char) {
    '0' <= c <= '9'
  }

  function DigitValue(c: char): nat
    requires IsDigit(c)
  {
    c as int - '0' as int
  }

  /** The value of a string of decimal digits, most significant first. */
  function DigitsValue(ds: string): nat
    requires forall k :: 0 <= k < |ds| ==> IsDigit(ds[k])
  {
    if ds == [] then 0 else DigitsValue(ds[..|ds| - 1]) * 10 + DigitValue(ds[|ds| - 1])
  }

  /** `String(n)` for a natural number: its decimal digits, with no leading zero. */
  function ShowNat(n: nat): (r: string)
    ensures r != []
    ensures forall k :: 0 <= k < |r| ==> IsDigit(r[k])
    ensures r[0] == '0' <==> n == 0
    ensures r[0] == '0' ==> r == "0"
  {
    if n < 10 then [('0' as int + n) as char] else ShowNat(n / 10) + [('0' as int + n % 10) as char]
  }

  /** Reading the digits back gives the number. */
  lemma {:induction false} ShowNatValue(n: nat)
    ensures DigitsValue(ShowNat(n)) == n
  {
    var r := ShowNat(n);
    if n >= 10 {
      ShowNatValue(n / 10);
      assert r[..|r| - 1] == ShowNat(n / 10);
    }
  }
}
