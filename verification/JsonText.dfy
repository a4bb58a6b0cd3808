/** Strings in JSON text (jwt.v). */
module JsonText {
  import opened Options
  import opened Base64

  const QUOTE: bv8 := 34
  const BACKSLASH: bv8 := 92
  const OPEN: bv8 := 123
  const CLOSE: bv8 := 125
  const COMMA: bv8 := 44
  const COLON: bv8 := 58

  function EscapeByte(c: bv8): Bytes {
    if c == QUOTE then [BACKSLASH, QUOTE]
    else if c == BACKSLASH then [BACKSLASH, BACKSLASH]
    else if c == 10 then [BACKSLASH, 110]
    else if c == 13 then [BACKSLASH, 114]
    else if c == 9 then [BACKSLASH, 116]
    else [c]
  }

  ghost function Escape(s: Bytes): Bytes {
    if s == [] then [] else EscapeByte(s[0]) + Escape(s[1..])
  }

  lemma EscapeStep(s: Bytes, i: nat)
    requires i < |s|
    ensures Escape(s[i..]) == EscapeByte(s[i]) + Escape(s[i + 1..])
  {
    assert s[i..][0] == s[i] && s[i..][1..] == s[i + 1..];
  }

  method EscapeJsonString(s: Bytes) returns (result: Bytes)
    ensures result == Escape(s)
  {
    hide Escape;
    result := [];
    assert s[0..] == s;
    for i := 0 to |s|
      invariant Escape(s) == result + Escape(s[i..])
    {
      EscapeStep(s, i);
      ghost var before := result;
      if s[i] == QUOTE {
        result := result + [BACKSLASH];
        result := result + [QUOTE];
      } else if s[i] == BACKSLASH {
        result := result + [BACKSLASH];
        result := result + [BACKSLASH];
      } else if s[i] == 10 {
        result := result + [BACKSLASH];
        result := result + [110];
      } else if s[i] == 13 {
        result := result + [BACKSLASH];
        result := result + [114];
      } else if s[i] == 9 {
        result := result + [BACKSLASH];
        result := result + [116];
      } else {
        result := result + [s[i]];
      }
      assert result == before + EscapeByte(s[i]);
    }
    NothingEscaped(s[|s|..]);
  }

  lemma NothingEscaped(s: Bytes)
    requires s == []
    ensures Escape(s) == []
  {
  }

  /** What a two-character escape stands for (section 7 of RFC 8259; the form with four hexadecimal digits is
      never written here). */
  ghost function Unescaped(c: bv8): Option<bv8> {
    if c == QUOTE || c == BACKSLASH || c == 47 then Some(c)
    else if c == 98 then Some(8)
    else if c == 102 then Some(12)
    else if c == 110 then Some(10)
    else if c == 114 then Some(13)
    else if c == 116 then Some(9)
    else None
  }

  /** Reads a string after its opening quote: its bytes, and the text after the closing quote. Control
      characters must not stand for themselves. */
  ghost function ReadString(t: Bytes): Option<(Bytes, Bytes)> {
    if t == [] then None
    else if t[0] == QUOTE then Some(([], t[1..]))
    else if t[0] == BACKSLASH then
      if |t| == 1 || Unescaped(t[1]).None? then None
      else
        var r := ReadString(t[2..]);
        if r.None? then None else Some(([Unescaped(t[1]).value] + r.value.0, r.value.1))
    else if t[0] < 32 then None
    else
      var r := ReadString(t[1..]);
      if r.None? then None else Some(([t[0]] + r.value.0, r.value.1))
  }

  /** Every control character has an escape here. */
  ghost predicate Escapable(s: Bytes) {
    forall i :: 0 <= i < |s| && s[i] < 32 ==> s[i] == 9 || s[i] == 10 || s[i] == 13
  }

  /** Escaped text reads back as the string that was escaped and ends where it should, whatever follows; with
      any other control character it is no JSON string at all. */
  lemma {:induction false} EscapeExact(s: Bytes, rest: Bytes)
    ensures ReadString(Escape(s) + [QUOTE] + rest) == if Escapable(s) then Some((s, rest)) else None
  {
    if s == [] {
      assert Escape(s) + [QUOTE] + rest == [QUOTE] + rest;
    } else {
      var e := EscapeByte(s[0]);
      var t := Escape(s[1..]) + [QUOTE] + rest;
      assert Escape(s) + [QUOTE] + rest == e + t;
      EscapeExact(s[1..], rest);
      assert (e + t)[|e|..] == t;
      assert Escapable(s) ==> Escapable(s[1..]);
      if Escapable(s[1..]) && !(s[0] < 32 && s[0] != 9 && s[0] != 10 && s[0] != 13) {
        assert forall i :: 0 < i < |s| ==> s[i] == s[1..][i - 1];
        assert s == [s[0]] + s[1..];
      }
    }
  }

  /** `"key":"value"` */
  function Quoted(s: Bytes): Bytes {
    [QUOTE] + s + [QUOTE]
  }

  function StringMember(k: Bytes, v: Bytes): Bytes {
    Quoted(k) + [COLON] + Quoted(v)
  }
}
