/** `src/util/regexp.util.ts`: `escapeRegExp`, which makes a string match itself literally in a pattern. */
module RegExpUtil {

  /** The characters the class `[.*+?^${}()|[\]\\]` matches: those with a meaning in a pattern. */
  predicate IsSpecial(c: char)
  {
    c == '.' || c == '*' || c == '+' || c == '?' || c == '^' || c == '$' || c == '{' || c == '}'
    || c == '(' || c == ')' || c == '|' || c == '[' || c == ']' || c == '\\'
  }

  /** `input.replace(/[.*+?^${}()|[\]\\]/g, "\\$&")`: a backslash before every special character. */
  function EscapeRegExp(input: string): string
  {
    if input == [] then []
    else (if IsSpecial(input[0]) then ['\\', input[0]] else [input[0]]) + EscapeRegExp(input[1..])
  }

  /** Drops the backslash of every escape pair and keeps every other character. */
  function Unescape(s: string): string
  {
    if s == [] then []
    else if s[0] == '\\' && |s| >= 2 then [s[1]] + Unescape(s[2..])
    else [s[0]] + Unescape(s[1..])
  }

  /** A pattern in which every special character is escaped, and nothing else is. */
  predicate Escaped(s: string)
  {
    if s == [] then true
    else if s[0] == '\\' then |s| >= 2 && IsSpecial(s[1]) && Escaped(s[2..])
    else !IsSpecial(s[0]) && Escaped(s[1..])
  }

  function CountSpecial(s: string): nat
  {
    if s == [] then 0 else (if IsSpecial(s[0]) then 1 else 0) + CountSpecial(s[1..])
  }

  lemma {:induction false} EscapeRegExpRoundTrip(input: string)
    ensures Unescape(EscapeRegExp(input)) == input
  {
    if input != [] {
      EscapeRegExpRoundTrip(input[1..]);
      var e := EscapeRegExp(input);
      var rest := EscapeRegExp(input[1..]);
      if IsSpecial(input[0]) {
        assert e == ['\\', input[0]] + rest;
        assert e[2..] == rest;
      } else {
        assert e == [input[0]] + rest;
        assert e[1..] == rest;
      }
    }
  }

  /** Different inputs give different patterns. */
  lemma EscapeRegExpInjective(a: string, b: string)
    requires EscapeRegExp(a) == EscapeRegExp(b)
    ensures a == b
  {
    EscapeRegExpRoundTrip(a);
    EscapeRegExpRoundTrip(b);
  }

  /** The output is well escaped: a pattern engine reads each of its characters literally. */
  lemma {:induction false} EscapeRegExpEscaped(input: string)
    ensures Escaped(EscapeRegExp(input))
  {
    if input != [] {
      EscapeRegExpEscaped(input[1..]);
      var e := EscapeRegExp(input);
      var rest := EscapeRegExp(input[1..]);
      if IsSpecial(input[0]) {
        assert e == ['\\', input[0]] + rest;
        assert e[2..] == rest;
      } else {
        assert e == [input[0]] + rest;
        assert e[1..] == rest;
      }
    }
  }

  /** Every well-escaped pattern is the escape of the text it stands for. */
  lemma {:induction false} EscapedIsEscapeOfUnescape(s: string)
    requires Escaped(s)
    ensures EscapeRegExp(Unescape(s)) == s
  {
    if s != [] {
      if s[0] == '\\' {
        EscapedIsEscapeOfUnescape(s[2..]);
        var u := Unescape(s);
        assert u == [s[1]] + Unescape(s[2..]);
        assert u[1..] == Unescape(s[2..]);
        assert s == ['\\', s[1]] + s[2..];
      } else {
        EscapedIsEscapeOfUnescape(s[1..]);
        var u := Unescape(s);
        assert u == [s[0]] + Unescape(s[1..]);
        assert u[1..] == Unescape(s[1..]);
        assert s == [s[0]] + s[1..];
      }
    }
  }

  /** One backslash is added per special character. */
  lemma {:induction false} EscapeRegExpLength(input: string)
    ensures |EscapeRegExp(input)| == |input| + CountSpecial(input)
  {
    if input != [] {
      EscapeRegExpLength(input[1..]);
    }
  }

  /** Escaping works character by character, so it distributes over concatenation. */
  lemma {:induction false} EscapeRegExpConcat(a: string, b: string)
    ensures EscapeRegExp(a + b) == EscapeRegExp(a) + EscapeRegExp(b)
  {
    if a == [] {
      assert a + b == b;
    } else {
      assert (a + b)[0] == a[0] && (a + b)[1..] == a[1..] + b;
      EscapeRegExpConcat(a[1..], b);
    }
  }

  /** A special character becomes a backslash followed by itself; any other character is kept. */
  lemma EscapeRegExpChar(c: char)
    ensures EscapeRegExp([c]) == if IsSpecial(c) then ['\\', c] else [c]
  {
    assert [c][1..] == [];
  }

  lemma EscapeRegExpExamples()
    ensures EscapeRegExp("") == ""
    ensures EscapeRegExp("a.b") == "a\\.b"
  {
    EscapeRegExpChar('a');
    EscapeRegExpChar('.');
    EscapeRegExpChar('b');
    EscapeRegExpConcat("a", ".b");
    EscapeRegExpConcat(".", "b");
    assert "a" + ".b" == "a.b" && "." + "b" == ".b";
  }
}
