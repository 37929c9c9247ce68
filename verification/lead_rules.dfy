/** The three field checks of the lead form (`hasTwoWords`, `isEmailValid`,
    `isWhatsValidIfProvided`), each as a predicate over the field's text, with the
    independent reading of each rule proved equivalent to it. A missing or empty
    value reaches them as `""`. */
module LeadRules {
  import opened Text

  // ---------------------------------------------------------------------------
  // Name: at least two words of at least two characters each
  // ---------------------------------------------------------------------------

  /** `hasTwoWords`: trim, collapse white-space runs to one space, split on the space,
      drop empty parts; at least two parts, the first two of length two or more. */
  predicate HasTwoWords(value: string) {
    var parts := NonEmpty(Split(Collapse(Trim(value)), ' '));
    |parts| >= 2 && |parts[0]| >= 2 && |parts[1]| >= 2
  }

  /** What `HasTwoWords` decides, in terms of the words of the value: there are two of
      them and the first two are at least two characters long. */
  lemma HasTwoWordsMeaning(value: string)
    ensures HasTwoWords(value) <==>
      var w := Words(value); |w| >= 2 && |w[0]| >= 2 && |w[1]| >= 2
  {
    TokensAreWords(value);
  }

  /** Only the first two words are looked at: whatever follows them after white space
      does not change an accepted name into a rejected one. */
  lemma HasTwoWordsIgnoresRest(name: string, c: char, rest: string)
    requires IsSpace(c) && HasTwoWords(name)
    ensures HasTwoWords(name + [c] + rest)
  {
    HasTwoWordsMeaning(name);
    HasTwoWordsMeaning(name + [c] + rest);
    WordsAround(name, c, rest);
  }

  /** A value whose first word has one character is refused, whatever follows. */
  lemma HasTwoWordsShortFirst(x: char, c: char, rest: string)
    requires !IsSpace(x) && IsSpace(c)
    ensures !HasTwoWords([x, c] + rest)
  {
    HasTwoWordsMeaning([x, c] + rest);
    ShortFirstWord(x, c, rest);
  }

  lemma ShortFirstWord(x: char, c: char, rest: string)
    requires !IsSpace(x) && IsSpace(c)
    ensures |Words([x, c] + rest)| >= 1 && Words([x, c] + rest)[0] == [x]
  {
    assert [x, c] + rest == [x] + [c] + rest;
    WordsAround([x], c, rest);
    assert [x][1..] == [];
    assert Fields([x][1..]) == [""];
    assert [x] + "" == [x];
    assert Fields([x]) == [[x]];
  }

  // ---------------------------------------------------------------------------
  // Email: ^[^\s@]+@[^\s@]+\.[^\s@]{2,}$ on the trimmed value
  // ---------------------------------------------------------------------------

  /** No white space and no `@`: the strings `[^\s@]*` matches. */
  predicate Plain(s: string) {
    forall i :: 0 <= i < |s| ==> !IsSpace(s[i]) && s[i] != '@'
  }

  /** The regular expression `^[^\s@]+@[^\s@]+\.[^\s@]{2,}$`, as the split it asks for:
      `v` is `local + "@" + domain + "." + tld` (`local == v[..at]`,
      `domain == v[at + 1..dot]`, `tld == v[dot + 1..]`), with `local` and `domain`
      non-empty, `tld` at least two long, and no white space or `@` in any of the three.
      `domain` and `tld` may hold further dots. */
  ghost predicate EmailPattern(v: string) {
    exists at, dot ::
      && 0 < at && at + 1 < dot && dot + 2 < |v|
      && v[at] == '@' && v[dot] == '.'
      && Plain(v[..at]) && Plain(v[at + 1..dot]) && Plain(v[dot + 1..])
  }

  /** How far `[^\s@]+` reaches from the start of `s`. */
  function PlainPrefix(s: string): (n: nat)
    ensures n <= |s| && Plain(s[..n])
    ensures n < |s| ==> IsSpace(s[n]) || s[n] == '@'
  {
    if s == [] || IsSpace(s[0]) || s[0] == '@' then 0
    else
      var n := 1 + PlainPrefix(s[1..]);
      assert s[..n] == [s[0]] + s[1..][..n - 1];
      n
  }

  /** The regular expression run over `v`: the local part is the plain prefix, which must
      stop at an `@`; what follows must be plain and hold a `.` with at least one character
      before it and at least two after it. */
  predicate EmailScan(v: string) {
    var at := PlainPrefix(v);
    && 0 < at < |v| && v[at] == '@' && Plain(v[at + 1..])
    && exists dot :: at + 1 < dot < |v| - 2 && v[dot] == '.'
  }

  /** `isEmailValid`: the regular expression run over the trimmed value. */
  predicate IsEmailValid(value: string) {
    EmailScan(Trim(value))
  }

  /** `IsEmailValid` accepts exactly the values whose trimmed form splits as
      `local + "@" + domain + "." + tld` in the way the regular expression asks. */
  lemma IsEmailValidMeaning(value: string)
    ensures IsEmailValid(value) <==> EmailPattern(Trim(value))
  {
    EmailScanIsPattern(Trim(value));
  }

  /** The scan accepts exactly the strings of the form the regular expression describes. */
  lemma EmailScanIsPattern(v: string)
    ensures EmailScan(v) <==> EmailPattern(v)
  {
    if EmailScan(v) {
      ScanGivesPattern(v);
    }
    if EmailPattern(v) {
      PatternGivesScan(v);
    }
  }

  lemma ScanGivesPattern(v: string)
    requires EmailScan(v)
    ensures EmailPattern(v)
  {
    var at := PlainPrefix(v);
    var dot :| at + 1 < dot < |v| - 2 && v[dot] == '.';
    assert v[at + 1..dot] == v[at + 1..][..dot - at - 1];
    assert v[dot + 1..] == v[at + 1..][dot - at..];
  }

  lemma PatternGivesScan(v: string)
    requires EmailPattern(v)
    ensures EmailScan(v)
  {
    var at, dot :| && 0 < at && at + 1 < dot && dot + 2 < |v|
                   && v[at] == '@' && v[dot] == '.'
                   && Plain(v[..at]) && Plain(v[at + 1..dot]) && Plain(v[dot + 1..]);
    PlainPrefixStopsAt(v, at);
    PlainAcrossDot(v, at + 1, dot);
  }

  /** The plain prefix ends at the first white space or `@`. */
  lemma PlainPrefixStopsAt(v: string, at: nat)
    requires at < |v| && Plain(v[..at]) && v[at] == '@'
    ensures PlainPrefix(v) == at
  {
  }

  /** A dot is plain, so two plain pieces around it make a plain whole. */
  lemma PlainAcrossDot(v: string, from: nat, dot: nat)
    requires from <= dot < |v| && v[dot] == '.'
    requires Plain(v[from..dot]) && Plain(v[dot + 1..])
    ensures Plain(v[from..])
  {
    forall k | from <= k < |v|
      ensures !IsSpace(v[k]) && v[k] != '@'
    {
      if k < dot {
        assert v[k] == v[from..dot][k - from];
      } else if k > dot {
        assert v[k] == v[dot + 1..][k - dot - 1];
      }
    }
  }

  /** A valid email holds exactly one `@` and no white space, once trimmed. */
  lemma EmailHasOneAt(value: string)
    requires IsEmailValid(value)
    ensures var v := Trim(value); Count(v, '@') == 1 && NoSpace(v)
  {
    ScanHasOneAt(Trim(value));
  }

  lemma ScanHasOneAt(v: string)
    requires EmailScan(v)
    ensures Count(v, '@') == 1 && NoSpace(v)
  {
    var at := PlainPrefix(v);
    var local, rest := v[..at], v[at + 1..];
    assert v == local + [v[at]] + rest;
    assert Count(v, '@') == 1 by {
      CountAppend(local + [v[at]], rest, '@');
      CountAppend(local, [v[at]], '@');
    }
    forall i | 0 <= i < |v| ensures !IsSpace(v[i]) {
      if i < at {
        assert v[i] == local[i];
      } else if i > at {
        assert v[i] == rest[i - at - 1];
      }
    }
  }

  /** On a value with no white space at either end, `IsEmailValid` is the regular expression itself. */
  lemma EmailOfTrimmed(v: string)
    requires v != [] ==> !IsSpace(v[0]) && !IsSpace(v[|v| - 1])
    ensures IsEmailValid(v) <==> EmailPattern(v)
  {
    assert IsEmailValid(v) == EmailScan(v) by {
      TrimUnchanged(v);
    }
    EmailScanIsPattern(v);
  }

  // ---------------------------------------------------------------------------
  // WhatsApp: optional; otherwise 10 to 13 digits
  // ---------------------------------------------------------------------------

  /** `isWhatsValidIfProvided`: an empty (or all-white-space) value is accepted, since the
      field is optional; otherwise the value must carry 10, 11, 12 or 13 digits
      (area code and number, optionally behind the country code 55). */
  predicate IsWhatsValidIfProvided(value: string) {
    var v := Trim(value);
    if v == [] then true
    else
      var digits := KeepDigits(v);
      |digits| == 10 || |digits| == 11 || |digits| == 12 || |digits| == 13
  }

  /** What `IsWhatsValidIfProvided` decides, over the raw value: all white space, or
      between 10 and 13 digits wherever they stand. */
  lemma WhatsMeaning(value: string)
    ensures IsWhatsValidIfProvided(value) <==>
      AllSpace(value) || 10 <= |KeepDigits(value)| <= 13
  {
    TrimEmpty(value);
    KeepDigitsTrim(value);
  }

  /** A value that is not blank but holds no digit is refused. */
  lemma WhatsWithoutDigits(value: string)
    requires !AllSpace(value)
    requires forall i :: 0 <= i < |value| ==> !IsDigit(value[i])
    ensures !IsWhatsValidIfProvided(value)
  {
    WhatsMeaning(value);
    KeepDigitsEmpty(value);
  }

  // ---------------------------------------------------------------------------
  // Worked examples, among them the samples the error messages show
  // ---------------------------------------------------------------------------

  /** Two non-empty runs of non-space characters around a space are two words. */
  lemma TwoWords(first: string, second: string)
    requires first != [] && NoSpace(first) && second != [] && NoSpace(second)
    ensures Words(first + " " + second) == [first, second]
  {
    WordsAround(first, ' ', second);
    WordsOfWord(first);
    WordsOfWord(second);
  }

  lemma AcceptedNames(name: string)
    requires name == "Ana Silva" || name == "Jo Ana" || name == "Ana Maria"
    ensures HasTwoWords(name)
  {
    if name == "Ana Silva" {
      NameOfTwoWords(name, "Ana", "Silva");
    } else if name == "Jo Ana" {
      NameOfTwoWords(name, "Jo", "Ana");
    } else {
      NameOfTwoWords(name, "Ana", "Maria");
    }
  }

  /** Extra white space around and between the words does not matter. */
  lemma AcceptedSpacedName(name: string)
    requires name == "  Ana   Maria  "
    ensures HasTwoWords(name)
  {
    SpacedWords(name);
    HasTwoWordsMeaning(name);
  }

  lemma SpacedWords(name: string)
    requires name == "  Ana   Maria  "
    ensures Words(name) == ["Ana", "Maria"]
  {
    assert name == "  " + "Ana" + "   " + "Maria" + "  ";
    SpacedPair("  ", "Ana", "   ", "Maria", "  ");
  }

  /** Two words with white space before, between and after them. */
  lemma SpacedPair(before: string, first: string, between: string, second: string, after: string)
    requires AllSpace(before) && AllSpace(between) && AllSpace(after) && between != []
    requires first != [] && NoSpace(first) && second != [] && NoSpace(second)
    ensures Words(before + first + between + second + after) == [first, second]
  {
    var inner := first + [between[0]] + (between[1..] + second);
    assert before + first + between + second + after == before + inner + after;
    WordsPadded(before, inner, after);
    WordsAround(first, between[0], between[1..] + second);
    assert between[1..] + second == between[1..] + second + [];
    WordsPadded(between[1..], second, []);
    WordsOfWord(first);
    WordsOfWord(second);
  }

  /** White space before and after a string adds no words. */
  lemma {:induction false} WordsPadded(before: string, s: string, after: string)
    requires AllSpace(before) && AllSpace(after)
    ensures Words(before + s + after) == Words(s)
    decreases |before| + |after|
  {
    if before != [] {
      assert before + s + after == [] + [before[0]] + (before[1..] + s + after);
      WordsAround([], before[0], before[1..] + s + after);
      WordsPadded(before[1..], s, after);
    } else if after != [] {
      var last := |after| - 1;
      var rest := s + after[..last];
      assert before + s + after == rest + [after[last]] + [];
      assert Words([]) == [] by {
        assert Fields([]) == [""];
        assert NonEmpty([""]) == [];
      }
      WordsAround(rest, after[last], []);
      assert rest == [] + s + after[..last];
      WordsPadded([], s, after[..last]);
    } else {
      assert before + s + after == s;
    }
  }

  lemma NameOfTwoWords(name: string, first: string, second: string)
    requires name == first + " " + second
    requires |first| >= 2 && NoSpace(first) && |second| >= 2 && NoSpace(second)
    ensures HasTwoWords(name)
  {
    TwoWords(first, second);
    HasTwoWordsMeaning(name);
  }

  lemma RefusedNames(name: string)
    requires name == "" || name == "Ana" || name == "A B"
    ensures !HasTwoWords(name)
  {
    if name == "" {
      HasTwoWordsMeaning(name);
    } else if name == "Ana" {
      assert Words(name) == [name] by { WordsOfWord(name); }
      HasTwoWordsMeaning(name);
    } else {
      assert name == ['A', ' '] + "B";
      HasTwoWordsShortFirst('A', ' ', "B");
    }
  }

  lemma PatternAt(v: string, at: nat, dot: nat)
    requires 0 < at && at + 1 < dot && dot + 2 < |v| && v[at] == '@' && v[dot] == '.'
    requires Plain(v[..at]) && Plain(v[at + 1..dot]) && Plain(v[dot + 1..])
    ensures EmailPattern(v)
  {
  }

  /** Any `local@domain.tld` built from plain pieces, with a top-level part of two or more
      characters, is accepted. */
  lemma EmailOfParts(local: string, domain: string, tld: string)
    requires local != [] && domain != [] && |tld| >= 2
    requires Plain(local) && Plain(domain) && Plain(tld)
    ensures IsEmailValid(local + "@" + domain + "." + tld)
  {
    var v := local + "@" + domain + "." + tld;
    var at, dot := |local|, |local| + 1 + |domain|;
    assert v[..at] == local && v[at + 1..dot] == domain && v[dot + 1..] == tld;
    PatternAt(v, at, dot);
    EmailOfTrimmed(v);
  }

  lemma AcceptedEmails(email: string)
    requires email == "a@b.co" || email == "a@b.c.d" || email == "a@b..c" || email == "ana@exemplo.com"
    ensures IsEmailValid(email)
  {
    if email == "a@b.co" {
      assert email == "a" + "@" + "b" + "." + "co";
      EmailOfParts("a", "b", "co");
    } else if email == "a@b.c.d" {
      assert email == "a" + "@" + "b" + "." + "c.d";
      EmailOfParts("a", "b", "c.d");
    } else if email == "a@b..c" {
      assert email == "a" + "@" + "b" + "." + ".c";
      EmailOfParts("a", "b", ".c");
    } else {
      assert email == "ana" + "@" + "exemplo" + "." + "com";
      EmailOfParts("ana", "exemplo", "com");
    }
  }

  /** The sample address the e-mail error message offers is accepted. */
  lemma MessageSampleEmail(email: string)
    requires email == "voce@exemplo.com"
    ensures IsEmailValid(email)
  {
    assert email == "voce" + "@" + "exemplo" + "." + "com";
    EmailOfParts("voce", "exemplo", "com");
  }

  lemma RefusedEmails(email: string)
    requires || email == "" || email == "a@b" || email == "a@b." || email == "a@b.c" || email == "a@.bc"
             || email == "@b.com" || email == "bad-email" || email == "a b@c.de"
    ensures !IsEmailValid(email)
  {
    if email == "@b.com" || email == "bad-email" {
      assert !EmailPattern(email) by { NoAtAfterStart(email); }
    } else if email == "a b@c.de" {
      assert !EmailPattern(email) by {
        assert forall i :: 0 <= i < |email| && email[i] == '@' ==> i == 3;
        assert email[..3][1] == ' ';
      }
    } else {
      assert !EmailPattern(email);
    }
    EmailOfTrimmed(email);
  }

  lemma NoAtAfterStart(v: string)
    requires forall i :: 0 < i < |v| ==> v[i] != '@'
    ensures !EmailPattern(v)
  {
  }

  lemma AcceptedWhats(whats: string)
    requires whats == "" || whats == "(11) 99999-9999" || whats == "+55 11 99999-9999" || whats == "11999999999"
    ensures IsWhatsValidIfProvided(whats)
  {
    if whats == "11999999999" {
      assert |KeepDigits(whats)| == 11 by { KeepDigitsOfDigits(whats); }
    } else if whats == "(11) 99999-9999" {
      NationalNumberDigits(whats);
    } else if whats == "+55 11 99999-9999" {
      InternationalNumberDigits(whats);
    }
    WhatsMeaning(whats);
  }

  lemma NationalNumberDigits(whats: string)
    requires whats == "(11) 99999-9999"
    ensures |KeepDigits(whats)| == 11
  {
    var a, b, c, d, e, f := "(", "11", ") ", "99999", "-", "9999";
    assert whats == a + b + c + d + e + f;
    assert KeepDigits(a) == [] by { KeepDigitsEmpty(a); }
    assert KeepDigits(c) == [] by { KeepDigitsEmpty(c); }
    assert KeepDigits(e) == [] by { KeepDigitsEmpty(e); }
    assert |KeepDigits(b)| == 2 by { KeepDigitsOfDigits(b); }
    assert |KeepDigits(d)| == 5 by { KeepDigitsOfDigits(d); }
    assert |KeepDigits(f)| == 4 by { KeepDigitsOfDigits(f); }
    KeepDigitsAppend(a + b + c + d + e, f);
    KeepDigitsAppend(a + b + c + d, e);
    KeepDigitsAppend(a + b + c, d);
    KeepDigitsAppend(a + b, c);
    KeepDigitsAppend(a, b);
  }

  lemma InternationalNumberDigits(whats: string)
    requires whats == "+55 11 99999-9999"
    ensures |KeepDigits(whats)| == 13
  {
    var a, b, c, d, e, f := "+", "55", " ", "11", " ", "99999-9999";
    assert whats == a + b + c + d + e + f;
    assert KeepDigits(a) == [] by { KeepDigitsEmpty(a); }
    assert KeepDigits(c) == [] by { KeepDigitsEmpty(c); }
    assert KeepDigits(e) == [] by { KeepDigitsEmpty(e); }
    assert |KeepDigits(b)| == 2 by { KeepDigitsOfDigits(b); }
    assert |KeepDigits(d)| == 2 by { KeepDigitsOfDigits(d); }
    assert |KeepDigits(f)| == 9 by {
      var g, h, k := "99999", "-", "9999";
      assert f == g + h + k;
      assert KeepDigits(h) == [] by { KeepDigitsEmpty(h); }
      assert |KeepDigits(g)| == 5 by { KeepDigitsOfDigits(g); }
      assert |KeepDigits(k)| == 4 by { KeepDigitsOfDigits(k); }
      KeepDigitsAppend(g + h, k);
      KeepDigitsAppend(g, h);
    }
    KeepDigitsAppend(a + b + c + d + e, f);
    KeepDigitsAppend(a + b + c + d, e);
    KeepDigitsAppend(a + b + c, d);
    KeepDigitsAppend(a + b, c);
    KeepDigitsAppend(a, b);
  }

  lemma RefusedWhats(whats: string)
    requires whats == "123" || whats == "telefone"
    ensures !IsWhatsValidIfProvided(whats)
  {
    if whats == "123" {
      assert |KeepDigits(whats)| == 3 by { KeepDigitsOfDigits(whats); }
      WhatsMeaning(whats);
    } else {
      assert !IsSpace(whats[0]);
      WhatsWithoutDigits(whats);
    }
  }
}
