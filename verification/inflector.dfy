/** The two case conversions the engine takes from the `inflector` crate:
    `to_title_case` and `to_camel_case` of a string. Both drop trailing
    characters that are neither letters nor digits and then scan the text
    once. A word ends at a run of other characters, after a digit, and
    between a lower-case letter and an upper-case one. Title case writes each
    word capitalised, words separated by one space; camel case writes the
    first word in lower case and the later ones capitalised, with nothing
    between them. Letters, digits and case are those of ASCII. */
module Inflector {
  import opened Text

  predicate IsDigit(c: char) { '0' <= c <= '9' }

  predicate IsAlphanumeric(c: char) { IsLower(c) || IsUpper(c) || IsDigit(c) }

  /** Every character is a lower-case letter. */
  predicate AllLower(w: string) { forall k :: 0 <= k < |w| ==> IsLower(w[k]) }

  /** The variables of the scan: a word is about to start, no word has been
      written yet, the last letter written in lower case as it was read,
      whether a letter or digit has been seen, and the text written so far. */
  datatype Scan = Scan(newWord: bool, firstWord: bool, lastChar: char, found: bool, out: string)

  /** Reads one character. `spaced` says whether words are separated by a
      space (title case) or not (camel case). Characters other than letters
      and digits are dropped; after a letter or digit has been seen they end
      the word. A digit is written as it is and ends the word. A letter that
      starts a word, or an upper-case letter after a lower-case one, is
      written in upper case (after a space, unless it starts the first
      word); any other letter is written in lower case and remembered. */
  function Next(spaced: bool, s: Scan, c: char): Scan
  {
    if !IsAlphanumeric(c) then (if s.found then s.(newWord := true) else s)
    else if IsDigit(c) then s.(found := true, newWord := true, out := s.out + [c])
    else if s.newWord || (IsLower(s.lastChar) && IsUpper(c)) then
      s.(found := true, newWord := false, firstWord := false,
         out := s.out + (if spaced && !s.firstWord then " " else "") + [ToUpperChar(c)])
    else s.(found := true, lastChar := c, out := s.out + [ToLowerChar(c)])
  }

  /** Reads the characters of `text` in order. */
  function Fold(spaced: bool, s: Scan, text: string): Scan
    decreases |text|
  {
    if text == [] then s else Fold(spaced, Next(spaced, s, text[0]), text[1..])
  }

  /** The text without its trailing characters that are not letters or
      digits. */
  function TrimEnd(s: string): (r: string)
    ensures |r| <= |s| && r == s[..|r|]
    ensures r == [] || IsAlphanumeric(r[|r| - 1])
    ensures forall k :: |r| <= k < |s| ==> !IsAlphanumeric(s[k])
  {
    if s == [] then []
    else if IsAlphanumeric(s[|s| - 1]) then s
    else TrimEnd(s[..|s| - 1])
  }

  /** `to_title_case`. */
  function TitleCase(s: string): string
  {
    Fold(true, Scan(true, true, ' ', false, ""), TrimEnd(s)).out
  }

  /** `to_camel_case`. */
  function CamelCase(s: string): string
  {
    Fold(false, Scan(false, false, ' ', false, ""), TrimEnd(s)).out
  }

  // ---------------------------------------------------------------------
  // Properties

  /** Reading `a + b` is reading `a`, then `b`. */
  lemma {:induction false} FoldAppend(spaced: bool, s: Scan, a: string, b: string)
    ensures Fold(spaced, s, a + b) == Fold(spaced, Fold(spaced, s, a), b)
    decreases |a|
  {
    if a == [] {
      assert a + b == b;
    } else {
      assert (a + b)[0] == a[0] && (a + b)[1..] == a[1..] + b;
      FoldAppend(spaced, Next(spaced, s, a[0]), a[1..], b);
    }
  }

  /** Inside a word, lower-case letters are copied and the last one is
      remembered. */
  lemma {:induction false} FoldLower(spaced: bool, s: Scan, w: string)
    requires s.found && !s.newWord
    requires AllLower(w)
    ensures Fold(spaced, s, w) == s.(out := s.out + w, lastChar := if w == [] then s.lastChar else w[|w| - 1])
    decreases |w|
  {
    if w == [] {
      assert s.out + w == s.out;
    } else {
      var t := Next(spaced, s, w[0]);
      assert t == s.(lastChar := w[0], out := s.out + [w[0]]);
      FoldLower(spaced, t, w[1..]);
      assert s.out + [w[0]] + w[1..] == s.out + w;
    }
  }

  /** A text that ends in a letter or digit is not trimmed. */
  lemma TrimEndKeeps(s: string)
    requires s != [] && IsAlphanumeric(s[|s| - 1])
    ensures TrimEnd(s) == s
  {
  }

  /** The title case of a word of lower-case letters is the word with its
      first letter upper-cased. */
  lemma TitleOfWord(w: string)
    requires w != [] && AllLower(w)
    ensures TitleCase(w) == UpperFirst(w)
  {
    TrimEndKeeps(w);
    var start := Scan(true, true, ' ', false, "");
    var t := Next(true, start, w[0]);
    assert t == Scan(false, false, ' ', true, [ToUpperChar(w[0])]);
    assert AllLower(w[1..]) by {
      assert forall k :: 0 <= k < |w| - 1 ==> w[1..][k] == w[k + 1];
    }
    FoldLower(true, t, w[1..]);
  }

  lemma TitleOfEmpty()
    ensures TitleCase("") == ""
  {
  }

  /** A digit ends a word: in `h2o` the `o` after the digit starts a new,
      capitalised word, written after a space. */
  lemma TitleBreaksAfterDigit()
    ensures TitleCase("h2o") == "H2 O"
  {
    var start := Scan(true, true, ' ', false, "");
    var s := "h2o";
    TrimEndKeeps(s);
    assert s[1..] == "2o" && s[1..][1..] == "o" && s[1..][1..][1..] == "";
    var t1 := Next(true, start, 'h');
    assert t1 == Scan(false, false, ' ', true, "H");
    var t2 := Next(true, t1, '2');
    assert t2 == Scan(true, false, ' ', true, "H2");
    var t3 := Next(true, t2, 'o');
    assert t3.out == "H2" + " " + "O";
  }

  /** A separator inside a text ends a word: `my-org` becomes `My Org`. */
  lemma TitleOfMyOrg()
    ensures TitleCase("my-org") == "My Org"
  {
    var start := Scan(true, true, ' ', false, "");
    var s := "my-org";
    TrimEndKeeps(s);
    assert s == "my" + ("-" + "org");
    var t := Fold(true, start, "my");
    assert t == Scan(false, false, 'y', true, "My") by {
      var t1 := Next(true, start, 'm');
      assert t1 == Scan(false, false, ' ', true, "M");
      assert "my"[1..] == "y";
      FoldLower(true, t1, "y");
    }
    var u := Next(true, t, '-');
    assert u == Scan(true, false, 'y', true, "My");
    assert Fold(true, t, "-" + "org") == Fold(true, u, "org") by {
      assert ("-" + "org")[0] == '-' && ("-" + "org")[1..] == "org";
    }
    var v := Next(true, u, 'o');
    assert v == Scan(false, false, 'y', true, "My" + " " + "O");
    assert "org"[1..] == "rg";
    FoldLower(true, v, "rg");
    FoldAppend(true, start, "my", "-" + "org");
  }

  /** Reading a first character, then the rest. */
  lemma FoldCons(spaced: bool, s: Scan, c: char, rest: string)
    ensures Fold(spaced, s, [c] + rest) == Fold(spaced, Next(spaced, s, c), rest)
  {
    assert ([c] + rest)[0] == c && ([c] + rest)[1..] == rest;
  }

  lemma AllLowerTail(w: string)
    requires w != [] && AllLower(w)
    ensures AllLower(w[1..])
  {
    assert forall k :: 0 <= k < |w| - 1 ==> w[1..][k] == w[k + 1];
  }

  /** Inside a word, after a lower-case letter. */
  predicate AfterLower(s: Scan) { s.found && !s.newWord && IsLower(s.lastChar) }

  /** After a lower-case letter, camel case copies a capitalised word of
      lower-case letters as it is, and ends after a lower-case letter again. */
  lemma CamelWord(s: Scan, w: string)
    requires AfterLower(s)
    requires w != [] && AllLower(w)
    ensures AfterLower(Fold(false, s, UpperFirst(w)))
    ensures Fold(false, s, UpperFirst(w)).out == s.out + UpperFirst(w)
  {
    var c := ToUpperChar(w[0]);
    assert UpperFirst(w) == [c] + w[1..];
    FoldCons(false, s, c, w[1..]);
    var t := Next(false, s, c);
    assert t == s.(newWord := false, firstWord := false, out := s.out + [c]);
    AllLowerTail(w);
    FoldLower(false, t, w[1..]);
    assert s.out + [c] + w[1..] == s.out + UpperFirst(w);
  }

  /** After a lower-case letter, camel case copies capitalised words of
      lower-case letters as they are, and ends after a lower-case letter
      again. */
  lemma {:induction false} CamelCapitalised(s: Scan, words: seq<string>)
    requires AfterLower(s)
    requires forall j :: 0 <= j < |words| ==> words[j] != [] && AllLower(words[j])
    ensures AfterLower(Fold(false, s, Capitalised(words)))
    ensures Fold(false, s, Capitalised(words)).out == s.out + Capitalised(words)
    decreases |words|
  {
    if words != [] {
      var u := Fold(false, s, UpperFirst(words[0]));
      CamelWord(s, words[0]);
      CamelCapitalised(u, words[1..]);
      CamelStep(s, words[0], Capitalised(words[1..]));
    }
  }

  /** One word copied, then the rest. */
  lemma CamelStep(s: Scan, w: string, rest: string)
    requires AfterLower(Fold(false, s, UpperFirst(w)))
    requires Fold(false, s, UpperFirst(w)).out == s.out + UpperFirst(w)
    requires AfterLower(Fold(false, Fold(false, s, UpperFirst(w)), rest))
    requires Fold(false, Fold(false, s, UpperFirst(w)), rest).out == Fold(false, s, UpperFirst(w)).out + rest
    ensures AfterLower(Fold(false, s, UpperFirst(w) + rest))
    ensures Fold(false, s, UpperFirst(w) + rest).out == s.out + (UpperFirst(w) + rest)
  {
    FoldAppend(false, s, UpperFirst(w), rest);
    assert s.out + UpperFirst(w) + rest == s.out + (UpperFirst(w) + rest);
  }

  /** The words, each with its first letter upper-cased, concatenated. */
  function Capitalised(words: seq<string>): string
  {
    if words == [] then "" else UpperFirst(words[0]) + Capitalised(words[1..])
  }

  /** Camel case starts by writing the first capitalised word in lower case;
      the letter it remembers is lower-case unless the word has one letter. */
  lemma CamelFirstWord(w: string)
    requires w != [] && AllLower(w)
    ensures var t := Fold(false, Scan(false, false, ' ', false, ""), UpperFirst(w));
      t.out == w && t.found && !t.newWord && (|w| >= 2 ==> IsLower(t.lastChar))
  {
    var start := Scan(false, false, ' ', false, "");
    var c := ToUpperChar(w[0]);
    assert UpperFirst(w) == [c] + w[1..];
    FoldCons(false, start, c, w[1..]);
    var t := Next(false, start, c);
    assert t == Scan(false, false, c, true, [w[0]]);
    AllLowerTail(w);
    FoldLower(false, t, w[1..]);
    assert [w[0]] + w[1..] == w;
  }

  /** The camel case of capitalised words of lower-case letters is the first
      word as it is followed by the others capitalised, provided the first
      word has at least two letters or is the only one. */
  lemma CamelOfCapitalised(words: seq<string>)
    requires |words| >= 1
    requires forall j :: 0 <= j < |words| ==> words[j] != [] && AllLower(words[j])
    requires |words[0]| >= 2 || |words| == 1
    ensures CamelCase(Capitalised(words)) == words[0] + Capitalised(words[1..])
  {
    CapitalisedEnd(words);
    TrimEndKeeps(Capitalised(words));
    CamelFromStart(words);
  }

  /** Camel case's scan over capitalised words, before any trimming. */
  lemma CamelFromStart(words: seq<string>)
    requires |words| >= 1
    requires forall j :: 0 <= j < |words| ==> words[j] != [] && AllLower(words[j])
    requires |words[0]| >= 2 || |words| == 1
    ensures Fold(false, Scan(false, false, ' ', false, ""), Capitalised(words)).out
      == words[0] + Capitalised(words[1..])
  {
    var w := words[0];
    var rest := Capitalised(words[1..]);
    var start := Scan(false, false, ' ', false, "");
    FoldAppend(false, start, UpperFirst(w), rest);
    CamelFirstWord(w);
    if |words| > 1 {
      CamelCapitalised(Fold(false, start, UpperFirst(w)), words[1..]);
    } else {
      assert rest == [];
      assert UpperFirst(w) + rest == UpperFirst(w);
    }
  }

  /** A capitalised list of non-empty words ends in a letter. */
  lemma {:induction false} CapitalisedEnd(words: seq<string>)
    requires |words| >= 1
    requires forall j :: 0 <= j < |words| ==> words[j] != [] && AllLower(words[j])
    ensures Capitalised(words) != [] && IsAlphanumeric(Capitalised(words)[|Capitalised(words)| - 1])
  {
    var w := UpperFirst(words[0]);
    if |words| == 1 {
      assert Capitalised(words) == w + "";
      assert w[|w| - 1] == (if |w| == 1 then ToUpperChar(words[0][0]) else words[0][|w| - 1]);
    } else {
      CapitalisedEnd(words[1..]);
    }
  }

  /** After a one-letter first word the source's camel case lower-cases the
      next capital: the `X` it reads first is remembered as it was read, an
      upper-case letter, so the `A` after it does not start a word. */
  lemma CamelAfterOneLetter()
    ensures CamelCase("XApp") == "xapp"
  {
    var start := Scan(false, false, ' ', false, "");
    var s := "XApp";
    TrimEndKeeps(s);
    assert s == "XA" + "pp";
    var t1 := Next(false, start, 'X');
    assert t1 == Scan(false, false, 'X', true, "x");
    var t2 := Next(false, t1, 'A');
    assert t2 == Scan(false, false, 'A', true, "xa");
    assert Fold(false, start, "XA") == t2 by {
      assert "XA"[1..] == "A" && "A"[1..] == "";
    }
    FoldLower(false, t2, "pp");
    FoldAppend(false, start, "XA", "pp");
  }
}
