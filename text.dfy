/** The few JavaScript string operations the lobby relies on: `||` defaulting
    on an optional field, `toUpperCase`, `trim` and `slice(0, n)`. */
module JsText {

  /** A decoded JSON field: `None` stands for a field that is absent, `null`
      or `undefined`. */
  datatype Option<T> = None | Some(value: T)

  /** The code points `String.prototype.trim` removes: the ECMAScript
      WhiteSpace and LineTerminator productions. */
  predicate IsSpace(c: char) {
    c == '\U{9}' || c == '\U{A}' || c == '\U{B}' || c == '\U{C}' || c == '\U{D}'
    || c == ' ' || c == '\U{A0}' || c == '\U{1680}'
    || ('\U{2000}' <= c <= '\U{200A}')
    || c == '\U{2028}' || c == '\U{2029}' || c == '\U{202F}' || c == '\U{205F}'
    || c == '\U{3000}' || c == '\U{FEFF}'
  }

  /** Upper-case mapping of one character (ASCII letters only): a lower-case
      letter becomes the capital at the same place in the alphabet. */
  function UpperChar(c: char): (u: char)
    ensures 'a' <= c <= 'z' ==> 'A' <= u <= 'Z' && u as int - 'A' as int == c as int - 'a' as int
    ensures !('a' <= c <= 'z') ==> u == c
  {
    if 'a' <= c <= 'z' then (c as int - 32) as char else c
  }

  /** Upper-casing neither creates nor removes whitespace. */
  lemma UpperCharSpace(c: char)
    ensures IsSpace(UpperChar(c)) <==> IsSpace(c)
  {
  }

  /** `s.toUpperCase()`: every character mapped, length kept. */
  function ToUpper(s: string): (r: string)
    ensures |r| == |s|
    ensures forall i :: 0 <= i < |s| ==> r[i] == UpperChar(s[i])
  {
    seq(|s|, i requires 0 <= i < |s| => UpperChar(s[i]))
  }

  /** No character of `s` changes under upper-casing. */
  ghost predicate UpperFixed(s: string) {
    forall c :: c in s ==> UpperChar(c) == c
  }

  /** The end of the whitespace run starting at `i`: every character from
      `i` up to the result is whitespace, and the result is the end of `s`
      or a character that is not. */
  function SkipSpace(s: string, i: nat): (n: nat)
    requires i <= |s|
    ensures i <= n <= |s|
    ensures forall j :: i <= j < n ==> IsSpace(s[j])
    ensures n < |s| ==> !IsSpace(s[n])
    decreases |s| - i
  {
    if i < |s| && IsSpace(s[i]) then SkipSpace(s, i + 1) else i
  }

  /** The start of the whitespace run ending at `n`, going back no further
      than `lo`: every character from the result up to `n` is whitespace,
      and the result is `lo` or follows a character that is not. */
  function SkipSpaceBack(s: string, n: nat, lo: nat): (m: nat)
    requires lo <= n <= |s|
    ensures lo <= m <= n
    ensures forall j :: m <= j < n ==> IsSpace(s[j])
    ensures lo < m ==> !IsSpace(s[m - 1])
    decreases n - lo
  {
    if lo < n && IsSpace(s[n - 1]) then SkipSpaceBack(s, n - 1, lo) else n
  }

  /** `r` is `s` with its leading whitespace run (up to `SkipSpace(s, 0)`)
      and some trailing whitespace cut off, nothing else changed. */
  ghost predicate TrimmedFrom(r: string, s: string) {
    var k := SkipSpace(s, 0);
    && k + |r| <= |s|
    && (forall i :: 0 <= i < |r| ==> r[i] == s[k + i])
    && (forall j :: 0 <= j < k || k + |r| <= j < |s| ==> IsSpace(s[j]))
  }

  /** `s.trim()`: a contiguous piece of `s` with no whitespace at either end;
      everything cut off is whitespace. */
  function Trim(s: string): (r: string)
    ensures r == [] || (!IsSpace(r[0]) && !IsSpace(r[|r| - 1]))
    ensures TrimmedFrom(r, s)
  {
    var a := SkipSpace(s, 0);
    var b := SkipSpaceBack(s, |s|, a);
    s[a..b]
  }

  /** `s.slice(0, n)`: the first `n` characters, or all of `s` if shorter. */
  function Prefix(s: string, n: nat): (r: string)
    ensures r <= s
    ensures |r| == if |s| < n then |s| else n
  {
    if |s| < n then s else s[..n]
  }

  /** The characters `nanoid` draws from (its default URL-safe alphabet). */
  predicate NanoidChar(c: char) {
    ('A' <= c <= 'Z') || ('a' <= c <= 'z') || ('0' <= c <= '9') || c == '_' || c == '-'
  }

  /** No `nanoid` character is whitespace, before or after upper-casing. */
  lemma NanoidNotSpace(c: char)
    requires NanoidChar(c)
    ensures !IsSpace(c) && !IsSpace(UpperChar(c))
  {
  }

  /** Upper-casing whitespace gives whitespace. */
  lemma ToUpperKeepsSpaces(s: string)
    requires forall i :: 0 <= i < |s| ==> IsSpace(s[i])
    ensures forall i :: 0 <= i < |ToUpper(s)| ==> IsSpace(ToUpper(s)[i])
  {
    forall i | 0 <= i < |s| ensures IsSpace(ToUpper(s)[i]) {
      UpperCharSpace(s[i]);
    }
  }

  /** A string without whitespace at its ends is its own trim. */
  lemma TrimFixed(s: string)
    requires s == [] || (!IsSpace(s[0]) && !IsSpace(s[|s| - 1]))
    ensures Trim(s) == s
  {
    assert SkipSpace(s, 0) == 0;
    assert SkipSpaceBack(s, |s|, 0) == |s|;
    assert s[0..|s|] == s;
  }

  /** Trimming twice is trimming once. */
  lemma TrimIdempotent(s: string)
    ensures Trim(Trim(s)) == Trim(s)
  {
    TrimFixed(Trim(s));
  }

  /** Trimming a string whose characters are all fixed under upper-casing
      keeps only such characters. */
  lemma TrimKeepsUpperFixed(s: string)
    requires UpperFixed(s)
    ensures UpperFixed(Trim(s))
  {
    var r := Trim(s);
    var k := SkipSpace(s, 0);
    forall c | c in r ensures UpperChar(c) == c {
      var i :| 0 <= i < |r| && r[i] == c;
      assert s[k + i] in s;
    }
  }

  /** Upper-casing distributes over concatenation. */
  lemma ToUpperAppend(a: string, b: string)
    ensures ToUpper(a + b) == ToUpper(a) + ToUpper(b)
  {
  }

  /** `trim` removes exactly the whitespace padding around a piece without
      whitespace at its ends. */
  lemma TrimPadded(pre: string, m: string, post: string)
    requires forall i :: 0 <= i < |pre| ==> IsSpace(pre[i])
    requires forall i :: 0 <= i < |post| ==> IsSpace(post[i])
    requires m == [] || (!IsSpace(m[0]) && !IsSpace(m[|m| - 1]))
    ensures Trim(pre + m + post) == m
  {
    var s := pre + m + post;
    var a := SkipSpace(s, 0);
    if m == [] {
      assert forall j :: 0 <= j < |s| ==> IsSpace(s[j]) by {
        assert forall j :: |pre| <= j < |s| ==> s[j] == post[j - |pre|];
      }
      assert a == |s|;
    } else {
      assert s[|pre|] == m[0];
      assert a == |pre|;
      assert s[|pre| + |m| - 1] == m[|m| - 1];
      assert forall j :: |pre| + |m| <= j < |s| ==> s[j] == post[j - |pre| - |m|];
      assert SkipSpaceBack(s, |s|, a) == |pre| + |m|;
      assert s[|pre|..|pre| + |m|] == m;
    }
  }

  /** Upper-casing a string whose characters are all fixed changes nothing. */
  lemma {:induction false} ToUpperOfFixed(s: string)
    requires UpperFixed(s)
    ensures ToUpper(s) == s
  {
    if s != [] {
      assert s[0] in s;
      assert UpperFixed(s[1..]) by {
        forall c | c in s[1..] ensures UpperChar(c) == c {
          assert c in s;
        }
      }
      ToUpperOfFixed(s[1..]);
    }
  }

  /** What `toUpperCase` returns is fixed by a second `toUpperCase`. */
  lemma ToUpperFixes(s: string)
    ensures UpperFixed(ToUpper(s))
  {
    var u := ToUpper(s);
    forall c | c in u ensures UpperChar(c) == c {
      var i :| 0 <= i < |u| && u[i] == c;
      assert c == UpperChar(s[i]);
    }
  }
}
