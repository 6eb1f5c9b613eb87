/** Dash-separated names turned into Pascal and camel case, as the Go
    component generator's `dashToPascal` and the TypeScript build's
    `dashToPascal` and its camel-case variant do: the pieces between dashes,
    each with its first character upper-cased, run together. */
module DashCase {
  import opened Text

  /** Each piece with its first character upper-cased. */
  function Capitalized(parts: seq<string>): (r: seq<string>)
    ensures |r| == |parts|
    ensures forall i :: 0 <= i < |parts| ==> r[i] == UpperFirst(parts[i])
  {
    if parts == [] then [] else [UpperFirst(parts[0])] + Capitalized(parts[1..])
  }

  /** What `dashToPascal` computes: the pieces between dashes, each
      capitalised, run together. */
  function PascalFromDashes(s: string): string
  {
    Concat(Capitalized(Split(s, '-')))
  }

  /** Running the pieces of a split together drops the separators. */
  lemma {:induction false} ConcatSplit(s: string, sep: char)
    ensures Concat(Split(s, sep)) == Without(s, sep)
  {
    if s != [] {
      ConcatSplit(s[1..], sep);
      var rest := Split(s[1..], sep);
      if s[0] != sep {
        assert Concat(rest) == rest[0] + Concat(rest[1..]);
        assert Concat([[s[0]] + rest[0]] + rest[1..]) == [s[0]] + rest[0] + Concat(rest[1..]);
      } else {
        assert Concat([[]] + rest) == Concat(rest);
      }
    }
  }

  lemma LowerAppend(a: string, b: string)
    ensures Lower(a + b) == Lower(a) + Lower(b)
  {
    LowerIs(a + b, Lower(a) + Lower(b));
  }

  /** Capitalising changes letters' case only. */
  lemma {:induction false} LowerCapitalized(parts: seq<string>)
    ensures Lower(Concat(Capitalized(parts))) == Lower(Concat(parts))
  {
    if parts != [] {
      LowerCapitalized(parts[1..]);
      assert Capitalized(parts)[1..] == Capitalized(parts[1..]);
      LowerAppend(UpperFirst(parts[0]), Concat(Capitalized(parts[1..])));
      LowerAppend(parts[0], Concat(parts[1..]));
      if parts[0] != [] {
        LowerIs(UpperFirst(parts[0]), Lower(parts[0]));
      }
    }
  }

  /** `dashToPascal` drops the dashes and changes nothing but letter
      case. */
  lemma PascalDropsDashes(s: string)
    ensures Lower(PascalFromDashes(s)) == Lower(Without(s, '-'))
  {
    LowerCapitalized(Split(s, '-'));
    ConcatSplit(s, '-');
  }

  /** Without a dash, only the first letter is upper-cased. */
  lemma PascalWithoutDash(s: string)
    requires '-' !in s
    ensures PascalFromDashes(s) == UpperFirst(s)
  {
    SplitNoSep(s, '-');
    assert Capitalized([s]) == [UpperFirst(s)];
    assert [UpperFirst(s)][1..] == [];
    assert Concat([UpperFirst(s)]) == UpperFirst(s) + Concat([]);
  }

  /** Empty pieces stay empty: `a--b` gives `AB`. */
  lemma PascalOfDoubleDash()
    ensures PascalFromDashes("a--b") == "AB"
  {
    SplitNoSep("b", '-');
    SplitPrefix("", "-b", '-');
    assert "-b"[1..] == "b";
    assert "" + "-b" == "-b";
    SplitPrefix("a", "--b", '-');
    assert "--b"[1..] == "-b";
    assert "a" + "--b" == "a--b";
    assert Split("a--b", '-') == ["a", "", "b"];
  }

  /** The camel-case name of the TypeScript build: the Pascal-case name
      with its first character lower-cased. */
  function CamelFromDashes(s: string): string
  {
    LowerFirst(PascalFromDashes(s))
  }

  /** Camel and Pascal case differ in the first character only, and a name
      without dashes that starts with a lower-case letter is its own camel
      case. */
  lemma CamelOfPascal(s: string)
    ensures |CamelFromDashes(s)| == |PascalFromDashes(s)|
    ensures UpperFirst(CamelFromDashes(s)) == UpperFirst(PascalFromDashes(s))
    ensures '-' !in s && s != [] && IsLower(s[0]) ==> CamelFromDashes(s) == s
  {
    var p := PascalFromDashes(s);
    if p != [] {
      var c := CamelFromDashes(s);
      assert c[1..] == p[1..];
      assert UpperFirst(c)[1..] == UpperFirst(p)[1..];
      if IsUpper(p[0]) {
        assert ToUpperChar(ToLowerChar(p[0])) == p[0] by {
          assert IsLower(ToLowerChar(p[0]));
        }
      } else {
        assert c[0] == p[0];
      }
      assert UpperFirst(c) == [UpperFirst(c)[0]] + UpperFirst(c)[1..];
      assert UpperFirst(p) == [UpperFirst(p)[0]] + UpperFirst(p)[1..];
    }
    if '-' !in s && s != [] && IsLower(s[0]) {
      PascalWithoutDash(s);
      assert LowerFirst(UpperFirst(s)) == [s[0]] + s[1..];
    }
  }
}
