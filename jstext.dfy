/** The small part of JavaScript's value and string semantics that the route
    handlers of index.js rely on: request-body fields, truthiness,
    `Array.prototype.join('')`, `String.prototype.trim` and `toLowerCase`. */
module JsText {

  datatype Option<+T> = None | Some(value: T)

  datatype Result<+R, +E> = Success(value: R) | Failure(error: E)

  /** A request-body or query value as a handler receives it: missing
      (`undefined`), a string, or an array of strings (a repeated form key). */
  datatype Field = Absent | Str(s: string) | Arr(parts: seq<string>)

  /** `!!f`: `undefined` and `""` are falsy, every array (even `[]`) is truthy. */
  predicate Truthy(f: Field) {
    match f
    case Absent => false
    case Str(s) => s != ""
    case Arr(_) => true
  }

  /** `parts.join('')`. */
  function Join(parts: seq<string>): string {
    if parts == [] then "" else Join(parts[..|parts| - 1]) + parts[|parts| - 1]
  }

  /** The characters `String.prototype.trim` removes: ECMAScript WhiteSpace
      (TAB, VT, FF, ZWNBSP and every space separator) and LineTerminator. */
  predicate IsJsWhitespace(c: char) {
    c == '\t' || c == '\n' || c == '\U{000B}' || c == '\U{000C}' || c == '\r' || c == ' '
    || c == '\U{00A0}' || c == '\U{1680}' || ('\U{2000}' <= c <= '\U{200A}')
    || c == '\U{2028}' || c == '\U{2029}' || c == '\U{202F}' || c == '\U{205F}'
    || c == '\U{3000}' || c == '\U{FEFF}'
  }

  predicate AllWhitespace(s: string) {
    forall k :: 0 <= k < |s| ==> IsJsWhitespace(s[k])
  }

  /** Drops the leading whitespace. */
  function TrimStart(s: string): string {
    if s != [] && IsJsWhitespace(s[0]) then TrimStart(s[1..]) else s
  }

  /** Drops the trailing whitespace. */
  function TrimEnd(s: string): string {
    if s != [] && IsJsWhitespace(s[|s| - 1]) then TrimEnd(s[..|s| - 1]) else s
  }

  /** `s.trim()`. */
  function Trim(s: string): string {
    TrimEnd(TrimStart(s))
  }

  /** `TrimStart` keeps a suffix of `s` that does not start with whitespace
      and removes only whitespace. */
  lemma {:induction false} TrimStartSpec(s: string)
    ensures |TrimStart(s)| <= |s| && TrimStart(s) == s[|s| - |TrimStart(s)|..]
    ensures AllWhitespace(s[..|s| - |TrimStart(s)|])
    ensures TrimStart(s) != [] ==> !IsJsWhitespace(TrimStart(s)[0])
  {
    if s != [] && IsJsWhitespace(s[0]) {
      var r := TrimStart(s[1..]);
      TrimStartSpec(s[1..]);
      assert s[..|s| - |r|] == [s[0]] + s[1..][..|s| - 1 - |r|];
    }
  }

  /** `TrimEnd` keeps a prefix of `s` that does not end with whitespace and
      removes only whitespace. */
  lemma {:induction false} TrimEndSpec(s: string)
    ensures |TrimEnd(s)| <= |s| && TrimEnd(s) == s[..|TrimEnd(s)|]
    ensures AllWhitespace(s[|TrimEnd(s)|..])
    ensures TrimEnd(s) != [] ==> !IsJsWhitespace(TrimEnd(s)[|TrimEnd(s)| - 1])
  {
    if s != [] && IsJsWhitespace(s[|s| - 1]) {
      var r := TrimEnd(s[..|s| - 1]);
      TrimEndSpec(s[..|s| - 1]);
      assert s[|r|..] == s[..|s| - 1][|r|..] + [s[|s| - 1]];
    }
  }

  /** What `trim` keeps neither starts nor ends with whitespace. */
  lemma TrimEnds(s: string)
    ensures |Trim(s)| <= |s|
    ensures Trim(s) != [] ==> !IsJsWhitespace(Trim(s)[0]) && !IsJsWhitespace(Trim(s)[|Trim(s)| - 1])
  {
    var t := TrimStart(s);
    TrimStartSpec(s);
    TrimEndSpec(t);
    if Trim(s) != [] {
      assert Trim(s)[0] == t[0];
    }
  }

  /** What `trim` keeps is an infix of `s`, what it removes on either side is
      whitespace, and it keeps nothing exactly when `s` is all whitespace. */
  lemma TrimIsInfix(s: string)
    ensures Trim(s) == [] <==> AllWhitespace(s)
    ensures exists i :: 0 <= i <= |s| - |Trim(s)| && Trim(s) == s[i..i + |Trim(s)|]
              && AllWhitespace(s[..i]) && AllWhitespace(s[i + |Trim(s)|..])
  {
    var t := TrimStart(s);
    var r := TrimEnd(t);
    TrimStartSpec(s);
    TrimEndSpec(t);
    assert Trim(s) == r;
    var i := |s| - |t|;
    assert t == s[i..];
    assert r == s[i..i + |r|];
    assert s[i + |r|..] == t[|r|..];
    assert AllWhitespace(s[..i]) && AllWhitespace(s[i + |r|..]);
    assert 0 <= i <= |s| - |r| && r == s[i..i + |r|];
    if r != [] {
      assert s[i] == r[0];
      assert !IsJsWhitespace(s[i]);
    } else {
      assert s == s[..i] + t[|r|..];
      AllWhitespaceConcat(s[..i], t[|r|..]);
    }
  }

  lemma AllWhitespaceConcat(a: string, b: string)
    requires AllWhitespace(a) && AllWhitespace(b)
    ensures AllWhitespace(a + b)
  {
  }

  lemma {:induction false} TrimStartSkips(w: string, x: string)
    requires AllWhitespace(w)
    ensures TrimStart(w + x) == TrimStart(x)
  {
    if w != [] {
      assert (w + x)[0] == w[0] && IsJsWhitespace(w[0]);
      assert (w + x)[1..] == w[1..] + x;
      TrimStartSkips(w[1..], x);
    } else {
      assert w + x == x;
    }
  }

  lemma {:induction false} TrimEndSkips(x: string, w: string)
    requires AllWhitespace(w)
    ensures TrimEnd(x + w) == TrimEnd(x)
  {
    if w != [] {
      assert (x + w)[|x + w| - 1] == w[|w| - 1] && IsJsWhitespace(w[|w| - 1]);
      assert (x + w)[..|x + w| - 1] == x + w[..|w| - 1];
      TrimEndSkips(x, w[..|w| - 1]);
    } else {
      assert x + w == x;
    }
  }

  /** Appending text after a string with a non-whitespace character does not
      change where its leading whitespace ends. */
  lemma {:induction false} TrimStartExtends(x: string, y: string)
    requires TrimStart(x) != []
    ensures TrimStart(x + y) == TrimStart(x) + y
  {
    if IsJsWhitespace(x[0]) {
      assert (x + y)[1..] == x[1..] + y;
      TrimStartExtends(x[1..], y);
    }
  }

  /** Trimming ignores any whitespace added around the string. */
  lemma TrimIgnoresSurrounding(w1: string, s: string, w2: string)
    requires AllWhitespace(w1) && AllWhitespace(w2)
    ensures Trim(w1 + s + w2) == Trim(s)
  {
    assert w1 + s + w2 == w1 + (s + w2);
    TrimStartSkips(w1, s + w2);
    var t := TrimStart(s);
    if t != [] {
      TrimStartExtends(s, w2);
      TrimEndSkips(t, w2);
    } else {
      TrimStartSpec(s);
      assert s[..|s|] == s;
      AllWhitespaceConcat(s, w2);
      TrimStartSkips(s + w2, []);
      assert s + w2 + [] == s + w2;
    }
    assert Trim(w1 + s + w2) == TrimEnd(TrimStart(s + w2));
  }

  /** A string that neither starts nor ends with whitespace is its own trim. */
  lemma TrimKeeps(s: string)
    requires s != [] ==> !IsJsWhitespace(s[0]) && !IsJsWhitespace(s[|s| - 1])
    ensures Trim(s) == s
  {
    assert TrimStart(s) == s;
  }

  /** Trimming twice is trimming once. */
  lemma TrimIdempotent(s: string)
    ensures Trim(Trim(s)) == Trim(s)
  {
    var r := Trim(s);
    TrimEnds(s);
    assert TrimStart(r) == r;
    assert TrimEnd(r) == r;
  }

  /** `toLowerCase` on one character, for the Basic Latin capitals. */
  function LowerChar(c: char): char {
    if 'A' <= c <= 'Z' then (c as int + 32) as char else c
  }

  function ToLower(s: string): (r: string)
    ensures |r| == |s|
    ensures forall k :: 0 <= k < |s| ==> r[k] == LowerChar(s[k])
  {
    seq(|s|, k requires 0 <= k < |s| => LowerChar(s[k]))
  }

  /** Lowercasing and trimming commute, so the order `trim().toLowerCase()`
      is immaterial. */
  lemma LowerTrimCommute(s: string)
    ensures ToLower(Trim(s)) == Trim(ToLower(s))
  {
    LowerTrimStart(s);
    LowerTrimEnd(TrimStart(s));
  }

  lemma LowerKeepsWhitespace(c: char)
    ensures IsJsWhitespace(LowerChar(c)) <==> IsJsWhitespace(c)
  {
  }

  lemma {:induction false} LowerTrimStart(s: string)
    ensures ToLower(TrimStart(s)) == TrimStart(ToLower(s))
  {
    if s != [] {
      LowerKeepsWhitespace(s[0]);
      assert ToLower(s)[0] == LowerChar(s[0]);
      if IsJsWhitespace(s[0]) {
        assert ToLower(s)[1..] == ToLower(s[1..]);
        LowerTrimStart(s[1..]);
      }
    }
  }

  lemma {:induction false} LowerTrimEnd(s: string)
    ensures ToLower(TrimEnd(s)) == TrimEnd(ToLower(s))
  {
    if s != [] {
      LowerKeepsWhitespace(s[|s| - 1]);
      assert ToLower(s)[|s| - 1] == LowerChar(s[|s| - 1]);
      if IsJsWhitespace(s[|s| - 1]) {
        assert ToLower(s)[..|s| - 1] == ToLower(s[..|s| - 1]);
        LowerTrimEnd(s[..|s| - 1]);
      }
    }
  }
}
