/** `escape_markdown`: every character of Telegram's MarkdownV2 reserved set is
    prefixed with one backslash; everything else is copied. */
module Markdown {

  /** The reserved set `\ _ * [ ] ( ) ~ ` > # + - = | { } . !` (the backslash
      appears twice in the source's character list; as a set it is one member). */
  predicate IsReserved(c: char) {
    c in "\\_*[]()~`>#+-=|{}.!"
  }

  /** What one input character becomes. */
  function EscapeChar(c: char): string {
    if IsReserved(c) then ['\\', c] else [c]
  }

  /** The regex substitution, applied left to right over the whole string. */
  function Escape(s: string): string {
    if s == [] then [] else EscapeChar(s[0]) + Escape(s[1..])
  }

  function CountReserved(s: string): nat {
    if s == [] then 0 else (if IsReserved(s[0]) then 1 else 0) + CountReserved(s[1..])
  }

  /** Drops the backslash in front of each escaped character. */
  function Unescape(t: string): string {
    if t == [] then []
    else if t[0] == '\\' && |t| >= 2 then [t[1]] + Unescape(t[2..])
    else [t[0]] + Unescape(t[1..])
  }

  /** `t` is made of escape pairs (a backslash and a reserved character) and plain
      unreserved characters: the shape Telegram accepts as MarkdownV2 literal text. */
  predicate IsEscaped(t: string) {
    if t == [] then true
    else if t[0] == '\\' then |t| >= 2 && IsReserved(t[1]) && IsEscaped(t[2..])
    else !IsReserved(t[0]) && IsEscaped(t[1..])
  }

  /** Escaping works character by character: it distributes over concatenation. */
  lemma {:induction false} EscapeAppend(a: string, b: string)
    ensures Escape(a + b) == Escape(a) + Escape(b)
  {
    if a != [] {
      assert (a + b)[1..] == a[1..] + b;
      EscapeAppend(a[1..], b);
    } else {
      assert a + b == b;
    }
  }

  /** One backslash is inserted per reserved character and nothing else is added. */
  lemma {:induction false} EscapeLength(s: string)
    ensures |Escape(s)| == |s| + CountReserved(s)
  {
    if s != [] {
      EscapeLength(s[1..]);
    }
  }

  /** Dropping each inserted backslash gives back the input. */
  lemma {:induction false} UnescapeEscape(s: string)
    ensures Unescape(Escape(s)) == s
  {
    if s != [] {
      var t := Escape(s);
      var rest := Escape(s[1..]);
      assert t == EscapeChar(s[0]) + rest;
      if IsReserved(s[0]) {
        assert t[2..] == rest;
      } else {
        assert s[0] != '\\';
        assert t[1..] == rest;
      }
      UnescapeEscape(s[1..]);
    }
  }

  /** Every output of the escaper is well-escaped MarkdownV2 text. */
  lemma {:induction false} EscapeIsEscaped(s: string)
    ensures IsEscaped(Escape(s))
  {
    if s != [] {
      var t := Escape(s);
      var rest := Escape(s[1..]);
      assert t == EscapeChar(s[0]) + rest;
      if IsReserved(s[0]) {
        assert t[2..] == rest;
      } else {
        assert s[0] != '\\';
        assert t[1..] == rest;
      }
      EscapeIsEscaped(s[1..]);
    }
  }

  /** Conversely, each well-escaped text is the escape of exactly one string, so the
      escaper is a bijection onto the well-escaped texts. */
  lemma {:induction false} EscapeUnescape(t: string)
    requires IsEscaped(t)
    ensures Escape(Unescape(t)) == t
  {
    if t != [] {
      if t[0] == '\\' {
        assert Unescape(t) == [t[1]] + Unescape(t[2..]);
        assert Unescape(t)[1..] == Unescape(t[2..]);
        EscapeUnescape(t[2..]);
      } else {
        assert Unescape(t) == [t[0]] + Unescape(t[1..]);
        assert Unescape(t)[1..] == Unescape(t[1..]);
        EscapeUnescape(t[1..]);
      }
    }
  }

  /** The escaper leaves a string unchanged exactly when it holds no reserved
      character. */
  lemma {:induction false} EscapeIdentityIff(s: string)
    ensures Escape(s) == s <==> forall i :: 0 <= i < |s| ==> !IsReserved(s[i])
  {
    EscapeLength(s);
    if s != [] {
      EscapeIdentityIff(s[1..]);
      EscapeLength(s[1..]);
      assert forall i :: 1 <= i < |s| ==> s[i] == s[1..][i - 1];
      if IsReserved(s[0]) {
        assert CountReserved(s) > 0;
      } else {
        assert Escape(s) == [s[0]] + Escape(s[1..]);
        assert s == [s[0]] + s[1..];
      }
    }
  }
}
