/** `snake_to_upper_camel`: turns a snake_case name into UpperCamelCase by
    dropping every underscore and upper-casing the first letter of each word. */
module SnakeCase {

  /** `std::toupper` in the "C" locale: only 'a'..'z' change. */
  function ToUpper(c: char): (u: char)
    ensures 'a' <= c <= 'z' ==> u as int == c as int - 32
    ensures !('a' <= c <= 'z') ==> u == c
    ensures !('a' <= u <= 'z')
  {
    if 'a' <= c <= 'z' then (c as int - 32) as char else c
  }

  /** The conversion of `s`, given whether its first character is to be
      capitalised (the loop's `capitalize_next` flag). */
  function CamelFrom(s: string, capitalizeNext: bool): string
  {
    if s == [] then []
    else if s[0] == '_' then CamelFrom(s[1..], true)
    else [if capitalizeNext then ToUpper(s[0]) else s[0]] + CamelFrom(s[1..], false)
  }

  /** What `snake_to_upper_camel` returns: the flag starts out true. */
  function UpperCamel(s: string): string {
    CamelFrom(s, true)
  }

  method SnakeToUpperCamel(snakeCase: string) returns (camelCase: string)
    ensures camelCase == UpperCamel(snakeCase)
  {
    camelCase := "";
    var capitalizeNext := true;
    var i := 0;
    while i < |snakeCase|
      invariant 0 <= i <= |snakeCase|
      invariant camelCase + CamelFrom(snakeCase[i..], capitalizeNext) == UpperCamel(snakeCase)
    {
      var ch := snakeCase[i];
      assert snakeCase[i..][1..] == snakeCase[i + 1..];
      if ch == '_' {
        capitalizeNext := true;
      } else {
        camelCase := camelCase + [if capitalizeNext then ToUpper(ch) else ch];
        capitalizeNext := false;
      }
      i := i + 1;
    }
  }

  // ---- an independent description: capitalise by position, then drop underscores ----

  /** Character `i` of `s` as it appears in the output: upper-cased when it
      starts the string (and the flag is set) or follows an underscore. */
  function MarkedAt(s: string, capitalizeFirst: bool, i: nat): char
    requires i < |s|
  {
    if (i == 0 && capitalizeFirst) || (i > 0 && s[i - 1] == '_') then ToUpper(s[i]) else s[i]
  }

  function Marked(s: string, capitalizeFirst: bool): (m: string)
    ensures |m| == |s|
    ensures forall i :: 0 <= i < |s| ==> m[i] == MarkedAt(s, capitalizeFirst, i)
  {
    seq(|s|, i requires 0 <= i < |s| => MarkedAt(s, capitalizeFirst, i))
  }

  function DropUnderscores(s: string): string {
    if s == [] then [] else (if s[0] == '_' then [] else [s[0]]) + DropUnderscores(s[1..])
  }

  function CountUnderscores(s: string): nat {
    if s == [] then 0 else (if s[0] == '_' then 1 else 0) + CountUnderscores(s[1..])
  }

  predicate NoUnderscore(s: string) {
    forall i :: 0 <= i < |s| ==> s[i] != '_'
  }

  /** The output is the input with each word's first character upper-cased
      and every underscore dropped: non-underscore characters keep their
      order, and each is either unchanged or upper-cased. */
  lemma {:induction false} UpperCamelIsMarkedThenDropped(s: string, capitalizeNext: bool)
    ensures CamelFrom(s, capitalizeNext) == DropUnderscores(Marked(s, capitalizeNext))
  {
    if s != [] {
      var m := Marked(s, capitalizeNext);
      var m' := Marked(s[1..], s[0] == '_');
      assert m[1..] == m' by {
        forall i | 0 <= i < |m'| ensures m[1..][i] == m'[i] {
          assert MarkedAt(s, capitalizeNext, i + 1) == MarkedAt(s[1..], s[0] == '_', i);
        }
      }
      assert m == [m[0]] + m';
      UpperCamelIsMarkedThenDropped(s[1..], s[0] == '_');
      assert m[0] == '_' <==> s[0] == '_';
    }
  }

  /** Every underscore is dropped. */
  lemma {:induction false} UpperCamelHasNoUnderscore(s: string, capitalizeNext: bool)
    ensures NoUnderscore(CamelFrom(s, capitalizeNext))
  {
    if s != [] {
      UpperCamelHasNoUnderscore(s[1..], s[0] == '_');
    }
  }

  /** The output is the input minus its underscores. */
  lemma {:induction false} UpperCamelLength(s: string, capitalizeNext: bool)
    ensures |CamelFrom(s, capitalizeNext)| == |s| - CountUnderscores(s)
  {
    if s != [] {
      UpperCamelLength(s[1..], s[0] == '_');
      CountUnderscoresBound(s[1..]);
    }
  }

  lemma {:induction false} CountUnderscoresBound(s: string)
    ensures CountUnderscores(s) <= |s|
  {
    if s != [] {
      CountUnderscoresBound(s[1..]);
    }
  }

  /** Empty input, or input made only of underscores, yields the empty string. */
  lemma {:induction false} OnlyUnderscoresGiveEmpty(s: string, capitalizeNext: bool)
    requires forall i :: 0 <= i < |s| ==> s[i] == '_'
    ensures CamelFrom(s, capitalizeNext) == []
  {
    if s != [] {
      OnlyUnderscoresGiveEmpty(s[1..], true);
    }
  }

  /** A run of underscores acts like a single one: "a__b" and "a_b" convert alike. */
  lemma {:induction false} UnderscoreRunCollapses(a: string, b: string, capitalizeNext: bool)
    ensures CamelFrom(a + "__" + b, capitalizeNext) == CamelFrom(a + "_" + b, capitalizeNext)
  {
    if a == [] {
      assert ("__" + b)[1..] == "_" + b;
      assert ("_" + b)[1..] == b;
    } else {
      assert (a + "__" + b)[1..] == a[1..] + "__" + b;
      assert (a + "_" + b)[1..] == a[1..] + "_" + b;
      UnderscoreRunCollapses(a[1..], b, a[0] == '_');
    }
  }

  /** Without underscores, the conversion only touches the first character. */
  lemma {:induction false} CamelOfPlainWord(t: string, capitalizeNext: bool)
    requires NoUnderscore(t)
    ensures t != [] ==> CamelFrom(t, capitalizeNext) == [if capitalizeNext then ToUpper(t[0]) else t[0]] + t[1..]
    ensures t == [] ==> CamelFrom(t, capitalizeNext) == []
  {
    if t != [] {
      CamelOfPlainWord(t[1..], false);
      if t[1..] != [] {
        assert [t[1..][0]] + t[1..][1..] == t[1..];
      }
    }
  }

  /** The first output character is already upper-case (or not a letter). */
  lemma {:induction false} FirstOutputIsUpper(s: string)
    ensures CamelFrom(s, true) != [] ==> ToUpper(CamelFrom(s, true)[0]) == CamelFrom(s, true)[0]
  {
    if s != [] && s[0] == '_' {
      FirstOutputIsUpper(s[1..]);
    }
  }

  /** Converting twice is converting once. */
  lemma UpperCamelIdempotent(s: string)
    ensures UpperCamel(UpperCamel(s)) == UpperCamel(s)
  {
    var t := UpperCamel(s);
    UpperCamelHasNoUnderscore(s, true);
    CamelOfPlainWord(t, true);
    FirstOutputIsUpper(s);
    if t != [] {
      assert [t[0]] + t[1..] == t;
    }
  }
}
