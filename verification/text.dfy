/** The JavaScript string built-ins the lead-form checks rely on, over `string`:
    white space as `\s` and `trim` see it, `trim`, `replace(/\s+/g, " ")`,
    `split(" ")`, `filter(Boolean)` and `replace(/\D/g, "")`. */
module Text {

  /** White space in the sense of ECMAScript: the WhiteSpace and LineTerminator
      code points, which is both what the regex class `\s` matches and what
      `String.prototype.trim` removes. */
  predicate IsSpace(c: char) {
    || c == '\t' || c == '\n' || c == '\U{000B}' || c == '\U{000C}' || c == '\r'
    || c == ' ' || c == '\U{00A0}' || c == '\U{1680}'
    || ('\U{2000}' <= c <= '\U{200A}')
    || c == '\U{2028}' || c == '\U{2029}' || c == '\U{202F}' || c == '\U{205F}'
    || c == '\U{3000}' || c == '\U{FEFF}'
  }

  /** An ASCII decimal digit: what `\d` matches (and `\D` rejects) in a regex without the `u` flag. */
  predicate IsDigit(c: char) {
    '0' <= c <= '9'
  }

  predicate AllSpace(s: string) {
    forall i :: 0 <= i < |s| ==> IsSpace(s[i])
  }

  predicate NoSpace(s: string) {
    forall i :: 0 <= i < |s| ==> !IsSpace(s[i])
  }

  // ---------------------------------------------------------------------------
  // trim
  // ---------------------------------------------------------------------------

  /** Drops the leading white space: what is left is empty or starts with a non-space. */
  function TrimStart(s: string): (r: string)
    ensures |r| <= |s|
    ensures r != [] ==> !IsSpace(r[0])
  {
    if s != [] && IsSpace(s[0]) then TrimStart(s[1..]) else s
  }

  /** `TrimStart` keeps a suffix of `s` and drops only white space. */
  lemma {:induction false} TrimStartSplits(s: string)
    ensures TrimStart(s) == s[|s| - |TrimStart(s)|..]
    ensures AllSpace(s[..|s| - |TrimStart(s)|])
  {
    if s != [] && IsSpace(s[0]) {
      TrimStartSplits(s[1..]);
    }
  }

  /** Drops the trailing white space: what is left is empty or ends with a non-space. */
  function TrimEnd(s: string): (r: string)
    ensures |r| <= |s|
    ensures r != [] ==> !IsSpace(r[|r| - 1]) && r[0] == s[0]
  {
    if s != [] && IsSpace(s[|s| - 1]) then TrimEnd(s[..|s| - 1]) else s
  }

  /** `TrimEnd` keeps a prefix of `s` and drops only white space. */
  lemma {:induction false} TrimEndSplits(s: string)
    ensures TrimEnd(s) == s[..|TrimEnd(s)|]
    ensures AllSpace(s[|TrimEnd(s)|..])
  {
    if s != [] && IsSpace(s[|s| - 1]) {
      TrimEndSplits(s[..|s| - 1]);
      assert s[|TrimEnd(s)|..] == s[..|s| - 1][|TrimEnd(s)|..] + [s[|s| - 1]];
    }
  }

  /** `s.trim()`: leading and trailing white space dropped, so the result is empty or
      starts and ends with a non-space. */
  function Trim(s: string): (r: string)
    ensures |r| <= |s|
    ensures r != [] ==> !IsSpace(r[0]) && !IsSpace(r[|r| - 1])
  {
    TrimEnd(TrimStart(s))
  }

  /** `trim` yields "" exactly for a string of white space only. */
  lemma TrimEmpty(s: string)
    ensures Trim(s) == [] <==> AllSpace(s)
  {
    var t := TrimStart(s);
    TrimStartSplits(s);
    TrimEndSplits(t);
    if Trim(s) == [] {
      assert t == [];
      assert s[..|s| - |t|] == s;
    }
  }

  /** `trim` keeps a contiguous piece of `s` and drops only white space before and after it. */
  lemma TrimSplits(s: string)
    ensures exists i :: 0 <= i <= |s| - |Trim(s)| && Trim(s) == s[i..i + |Trim(s)|]
                        && AllSpace(s[..i]) && AllSpace(s[i + |Trim(s)|..])
  {
    var t := TrimStart(s);
    var r := TrimEnd(t);
    TrimStartSplits(s);
    TrimEndSplits(t);
    var i := |s| - |t|;
    assert s[i..i + |r|] == t[..|r|];
    assert s[i + |r|..] == t[|r|..];
  }

  /** `Trim` cuts nothing from a string that neither starts nor ends with white space. */
  lemma TrimUnchanged(s: string)
    requires s != [] ==> !IsSpace(s[0]) && !IsSpace(s[|s| - 1])
    ensures Trim(s) == s
  {
  }

  // ---------------------------------------------------------------------------
  // replace(/\s+/g, " ")
  // ---------------------------------------------------------------------------

  /** `s.replace(/\s+/g, " ")`: every maximal run of white space becomes a single `' '`,
      everything else is kept. The result is empty only when `s` is, and it starts where
      `s` starts; `CollapseShape` gives the shape of the rest. */
  function Collapse(s: string): (r: string)
    ensures |r| <= |s| && (r == [] <==> s == [])
    ensures s != [] ==> (IsSpace(s[0]) <==> IsSpace(r[0]))
    ensures s != [] && !IsSpace(s[0]) ==> r[0] == s[0]
    decreases |s|
  {
    if s == [] then []
    else if IsSpace(s[0]) then " " + Collapse(TrimStart(s[1..]))
    else [s[0]] + Collapse(s[1..])
  }

  /** After collapsing, `' '` is the only white space left and no two spaces stand in a row. */
  lemma {:induction false} CollapseShape(s: string)
    ensures forall i :: 0 <= i < |Collapse(s)| ==> (IsSpace(Collapse(s)[i]) <==> Collapse(s)[i] == ' ')
    ensures forall i :: 0 < i < |Collapse(s)| ==> !(Collapse(s)[i - 1] == ' ' && Collapse(s)[i] == ' ')
    decreases |s|
  {
    if s != [] {
      var rest := if IsSpace(s[0]) then TrimStart(s[1..]) else s[1..];
      CollapseShape(rest);
      var c := Collapse(rest);
      var r := Collapse(s);
      assert r == (if IsSpace(s[0]) then " " else [s[0]]) + c;
      assert forall i :: 0 <= i < |c| ==> r[i + 1] == c[i];
    }
  }

  // ---------------------------------------------------------------------------
  // split, filter(Boolean), and the white-space-separated words
  // ---------------------------------------------------------------------------

  /** `s.split(sep)` for a one-character separator: the pieces between occurrences of
      `sep`, empty pieces included; `"".split(sep)` is `[""]`. */
  function Split(s: string, sep: char): (r: seq<string>)
    ensures |r| >= 1
    ensures forall k :: 0 <= k < |r| ==> sep !in r[k]
  {
    if s == [] then [""]
    else
      var rest := Split(s[1..], sep);
      if s[0] == sep then [""] + rest else [[s[0]] + rest[0]] + rest[1..]
  }

  /** `parts.join(sep)`: the inverse of `Split`. */
  function Join(parts: seq<string>, sep: char): string
    requires |parts| >= 1
  {
    if |parts| == 1 then parts[0] else parts[0] + [sep] + Join(parts[1..], sep)
  }

  lemma {:induction false} SplitJoin(s: string, sep: char)
    ensures Join(Split(s, sep), sep) == s
  {
    if s != [] {
      SplitJoin(s[1..], sep);
      var rest := Split(s[1..], sep);
      if s[0] == sep {
        assert s == [sep] + s[1..];
      } else if |rest| == 1 {
        assert s == [s[0]] + rest[0];
      } else {
        assert s == [s[0]] + (rest[0] + [sep] + Join(rest[1..], sep));
      }
    }
  }

  /** The pieces of `s` between its white-space characters, empty pieces included:
      the reference for what a "word" of a name is. */
  function Fields(s: string): (r: seq<string>)
    ensures |r| >= 1
    ensures forall k :: 0 <= k < |r| ==> NoSpace(r[k])
  {
    if s == [] then [""]
    else
      var rest := Fields(s[1..]);
      if IsSpace(s[0]) then [""] + rest else [[s[0]] + rest[0]] + rest[1..]
  }

  /** `parts.filter(Boolean)` on strings: the non-empty parts, in order. */
  function NonEmpty(parts: seq<string>): (r: seq<string>)
    ensures |r| <= |parts|
    ensures forall k :: 0 <= k < |r| ==> r[k] != [] && r[k] in parts
  {
    if parts == [] then []
    else (if parts[0] == [] then [] else [parts[0]]) + NonEmpty(parts[1..])
  }

  /** The words of `s`: its maximal runs of non-space characters, in order. */
  function Words(s: string): (r: seq<string>)
    ensures forall k :: 0 <= k < |r| ==> r[k] != [] && NoSpace(r[k])
  {
    NonEmpty(Fields(s))
  }

  lemma {:induction false} NonEmptyAppend(a: seq<string>, b: seq<string>)
    ensures NonEmpty(a + b) == NonEmpty(a) + NonEmpty(b)
  {
    if a == [] {
      assert a + b == b;
    } else {
      assert (a + b)[0] == a[0] && (a + b)[1..] == a[1..] + b;
      NonEmptyAppend(a[1..], b);
      var head := if a[0] == [] then [] else [a[0]];
      assert NonEmpty(a + b) == head + NonEmpty(a[1..] + b);
    }
  }

  /** A white-space character separates fields: the fields of `a + [c] + b` are those of `a`
      followed by those of `b`. */
  lemma {:induction false} FieldsAround(a: string, c: char, b: string)
    requires IsSpace(c)
    ensures Fields(a + [c] + b) == Fields(a) + Fields(b)
  {
    if a == [] {
      assert ([c] + b)[1..] == b;
    } else {
      assert (a + [c] + b)[1..] == a[1..] + [c] + b;
      FieldsAround(a[1..], c, b);
    }
  }

  /** The words on either side of a white-space character are kept apart, in order. */
  lemma WordsAround(a: string, c: char, b: string)
    requires IsSpace(c)
    ensures Words(a + [c] + b) == Words(a) + Words(b)
  {
    FieldsAround(a, c, b);
    NonEmptyAppend(Fields(a), Fields(b));
  }

  /** Leading white space adds only empty fields. */
  lemma {:induction false} WordsTrimStart(s: string)
    ensures Words(TrimStart(s)) == Words(s)
  {
    if s != [] && IsSpace(s[0]) {
      WordsTrimStart(s[1..]);
      assert Fields(s) == [""] + Fields(s[1..]);
      NonEmptyAppend([""], Fields(s[1..]));
    }
  }

  /** Trailing white space adds only empty fields. */
  lemma {:induction false} WordsTrimEnd(s: string)
    ensures Words(TrimEnd(s)) == Words(s)
  {
    if s != [] && IsSpace(s[|s| - 1]) {
      var p := s[..|s| - 1];
      WordsTrimEnd(p);
      FieldsAround(p, s[|s| - 1], "");
      assert s == p + [s[|s| - 1]] + "";
      NonEmptyAppend(Fields(p), [""]);
    }
  }

  /** A run of non-space characters is a single field. */
  lemma {:induction false} FieldsOfWord(s: string)
    requires NoSpace(s)
    ensures Fields(s) == [s]
  {
    if s != [] {
      FieldsOfWord(s[1..]);
      assert [s[0]] + s[1..] == s;
    }
  }

  /** A non-empty run of non-space characters is one word. */
  lemma WordsOfWord(s: string)
    requires s != [] && NoSpace(s)
    ensures Words(s) == [s]
  {
    FieldsOfWord(s);
  }

  /** Trimming keeps the words. */
  lemma WordsTrim(s: string)
    ensures Words(Trim(s)) == Words(s)
  {
    WordsTrimEnd(TrimStart(s));
    WordsTrimStart(s);
  }

  lemma NonEmptyCons(f: seq<string>)
    requires |f| >= 1
    ensures NonEmpty(f) == (if f[0] == [] then [] else [f[0]]) + NonEmpty(f[1..])
  {
  }

  /** Collapsing white-space runs keeps the first field and the words after it. */
  lemma {:induction false} CollapseFields(t: string)
    ensures Fields(Collapse(t))[0] == Fields(t)[0]
    ensures NonEmpty(Fields(Collapse(t))[1..]) == NonEmpty(Fields(t)[1..])
    decreases |t|
  {
    if t == [] {
    } else if IsSpace(t[0]) {
      var u := TrimStart(t[1..]);
      CollapseFields(u);
      var f := Fields(Collapse(u));
      assert (" " + Collapse(u))[1..] == Collapse(u);
      assert Fields(Collapse(t)) == [""] + f;
      NonEmptyCons(f);
      NonEmptyCons(Fields(u));
      WordsTrimStart(t[1..]);
    } else {
      CollapseFields(t[1..]);
      assert ([t[0]] + Collapse(t[1..]))[1..] == Collapse(t[1..]);
    }
  }

  /** Once `' '` is the only white space left, splitting on `' '` is splitting on white space. */
  lemma {:induction false} SplitSpaceIsFields(s: string)
    requires forall i :: 0 <= i < |s| ==> (IsSpace(s[i]) <==> s[i] == ' ')
    ensures Split(s, ' ') == Fields(s)
  {
    if s != [] {
      SplitSpaceIsFields(s[1..]);
    }
  }

  /** `v.trim().replace(/\s+/g, " ").split(" ").filter(Boolean)` yields exactly the words of `v`. */
  lemma TokensAreWords(v: string)
    ensures NonEmpty(Split(Collapse(Trim(v)), ' ')) == Words(v)
  {
    var t := Trim(v);
    CollapseShape(t);
    SplitSpaceIsFields(Collapse(t));
    CollapseFields(t);
    NonEmptyCons(Fields(Collapse(t)));
    NonEmptyCons(Fields(t));
    WordsTrim(v);
  }

  // ---------------------------------------------------------------------------
  // replace(/\D/g, "") and counting
  // ---------------------------------------------------------------------------

  /** `s.replace(/\D/g, "")`: the digits of `s`, in order. */
  function KeepDigits(s: string): (r: string)
    ensures |r| <= |s|
    ensures forall i :: 0 <= i < |r| ==> IsDigit(r[i])
  {
    if s == [] then [] else (if IsDigit(s[0]) then [s[0]] else []) + KeepDigits(s[1..])
  }

  lemma {:induction false} KeepDigitsAppend(a: string, b: string)
    ensures KeepDigits(a + b) == KeepDigits(a) + KeepDigits(b)
  {
    if a == [] {
      assert a + b == b;
    } else {
      assert (a + b)[0] == a[0] && (a + b)[1..] == a[1..] + b;
      KeepDigitsAppend(a[1..], b);
      var head := if IsDigit(a[0]) then [a[0]] else [];
      assert KeepDigits(a + b) == head + KeepDigits(a[1..] + b);
    }
  }

  /** A string with no digit keeps nothing, and one with a digit keeps something. */
  lemma {:induction false} KeepDigitsEmpty(s: string)
    ensures KeepDigits(s) == [] <==> forall i :: 0 <= i < |s| ==> !IsDigit(s[i])
  {
    if s != [] {
      KeepDigitsEmpty(s[1..]);
      assert forall i :: 1 <= i < |s| ==> s[i] == s[1..][i - 1];
    }
  }

  /** A string of digits keeps all of them. */
  lemma {:induction false} KeepDigitsOfDigits(s: string)
    requires forall i :: 0 <= i < |s| ==> IsDigit(s[i])
    ensures KeepDigits(s) == s
  {
    if s != [] {
      KeepDigitsOfDigits(s[1..]);
      assert [s[0]] + s[1..] == s;
    }
  }

  /** White space holds no digits. */
  lemma {:induction false} KeepDigitsOfSpace(s: string)
    requires AllSpace(s)
    ensures KeepDigits(s) == []
  {
    if s != [] {
      KeepDigitsOfSpace(s[1..]);
    }
  }

  lemma KeepDigitsBetweenSpace(front: string, mid: string, back: string)
    requires AllSpace(front) && AllSpace(back)
    ensures KeepDigits(front + mid + back) == KeepDigits(mid)
  {
    KeepDigitsAppend(front + mid, back);
    KeepDigitsAppend(front, mid);
    KeepDigitsOfSpace(front);
    KeepDigitsOfSpace(back);
  }

  /** Trimming keeps every digit. */
  lemma KeepDigitsTrim(s: string)
    ensures KeepDigits(Trim(s)) == KeepDigits(s)
  {
    var t := TrimStart(s);
    var r := TrimEnd(t);
    TrimStartSplits(s);
    TrimEndSplits(t);
    var front := s[..|s| - |t|];
    var back := t[|r|..];
    assert s == front + r + back;
    KeepDigitsBetweenSpace(front, r, back);
  }

  /** The number of occurrences of `c` in `s`. */
  function Count(s: string, c: char): (n: nat)
    ensures n <= |s|
    ensures n == 0 <==> c !in s
  {
    if s == [] then 0 else (if s[0] == c then 1 else 0) + Count(s[1..], c)
  }

  lemma {:induction false} CountAppend(a: string, b: string, c: char)
    ensures Count(a + b, c) == Count(a, c) + Count(b, c)
  {
    if a == [] {
      assert a + b == b;
    } else {
      assert (a + b)[0] == a[0] && (a + b)[1..] == a[1..] + b;
      CountAppend(a[1..], b, c);
      assert Count(a + b, c) == (if a[0] == c then 1 else 0) + Count(a[1..] + b, c);
    }
  }
}
