/** What FormatScalar quotes (internal/config/edit.go), and what the quoted form stands for: read back by the
    rules of Go's string literals it is the value, whatever bytes that holds. */
module ConfigEscapes {
  import opened Text
  import opened ConfigScalar

  // ----- reading a Go string literal ------------------------------------------------------------------

  function HexValue(c: char): Option<nat> {
    if '0' <= c <= '9' then Some((c - '0') as nat)
    else if 'a' <= c <= 'f' then Some((c - 'a') as nat + 10)
    else if 'A' <= c <= 'F' then Some((c - 'A') as nat + 10)
    else None
  }

  function SimpleEscape(c: char): Option<char> {
    if c == 'a' then Some(7 as char)
    else if c == 'b' then Some(8 as char)
    else if c == 't' then Some(9 as char)
    else if c == 'n' then Some(10 as char)
    else if c == 'v' then Some(11 as char)
    else if c == 'f' then Some(12 as char)
    else if c == 'r' then Some(13 as char)
    else if c == '\\' || c == '"' then Some(c)
    else None
  }

  /** The text between the quotes of a literal, as Go reads it; None when it is not well-formed. */
  function GoText(s: string): Option<string>
    decreases |s|
  {
    if s == "" then Some("")
    else if s[0] == '"' || s[0] == '\n' then None
    else if s[0] != '\\' then
      match GoText(s[1..]) case None => None case Some(t) => Some([s[0]] + t)
    else if |s| >= 4 && s[1] == 'x' && HexValue(s[2]).Some? && HexValue(s[3]).Some? then
      match GoText(s[4..])
      case None => None
      case Some(t) => Some([(HexValue(s[2]).value * 16 + HexValue(s[3]).value) as char] + t)
    else if |s| >= 2 && SimpleEscape(s[1]).Some? then
      match GoText(s[2..]) case None => None case Some(t) => Some([SimpleEscape(s[1]).value] + t)
    else None
  }

  lemma HexIsRead(n: nat)
    requires n < 16
    ensures HexValue(Hex(n)) == Some(n)
  {
  }

  lemma ByteIsRead(c: char, rest: string)
    ensures GoText(QuoteByte(c) + rest) ==
            match GoText(rest) case None => None case Some(t) => Some([c] + t)
  {
    hide GoText;
    hide Hex;
    hide HexValue;
    var q := QuoteByte(c);
    var s := q + rest;
    if |q| == 1 {
      assert s[1..] == rest;
    } else if |q| == 2 {
      assert s[2..] == rest && s[0] == q[0] && s[1] == q[1];
    } else {
      HexIsRead(c as int / 16);
      HexIsRead(c as int % 16);
      assert s[4..] == rest && s[0] == q[0] && s[1] == q[1] && s[2] == q[2] && s[3] == q[3];
    }
    ReadOne(s);
  }

  /** One turn of the reading. */
  lemma ReadOne(s: string)
    requires s != ""
    ensures s[0] != '\\' && s[0] != '"' && s[0] != '\n' ==>
              GoText(s) == match GoText(s[1..]) case None => None case Some(t) => Some([s[0]] + t)
    ensures s[0] == '\\' && |s| >= 2 && s[1] != 'x' && SimpleEscape(s[1]).Some? ==>
              GoText(s) == match GoText(s[2..])
                           case None => None case Some(t) => Some([SimpleEscape(s[1]).value] + t)
    ensures s[0] == '\\' && |s| >= 4 && s[1] == 'x' && HexValue(s[2]).Some? && HexValue(s[3]).Some? ==>
              GoText(s) == match GoText(s[4..])
                           case None => None
                           case Some(t) => Some([(HexValue(s[2]).value * 16 + HexValue(s[3]).value) as char] + t)
  {
  }

  /** Quoting loses nothing: read back as a Go string literal, the quoted form is the value. */
  lemma {:induction false} QuoteRoundTrip(v: string)
    ensures |Quote(v)| >= 2 && Quote(v)[0] == '"' && Quote(v)[|Quote(v)| - 1] == '"'
    ensures GoText(Quote(v)[1..|Quote(v)| - 1]) == Some(v)
  {
    assert Quote(v)[1..|Quote(v)| - 1] == Escaped(v);
    EscapedRoundTrip(v);
  }

  lemma {:induction false} EscapedRoundTrip(v: string)
    ensures GoText(Escaped(v)) == Some(v)
  {
    hide QuoteByte;
    if v != "" {
      EscapedRoundTrip(v[1..]);
      ByteIsRead(v[0], Escaped(v[1..]));
      assert v == [v[0]] + v[1..];
    }
  }

  // ----- what is quoted ---------------------------------------------------------------------------------

  predicate HasOneOf(v: string, bytes: string) {
    exists i :: 0 <= i < |v| && v[i] in bytes
  }

  /** A word a YAML parser takes for a boolean or for nothing, in any case. */
  predicate IsYamlWord(v: string) {
    ToLower(v) == "yes" || ToLower(v) == "no" || ToLower(v) == "on" || ToLower(v) == "off"
    || ToLower(v) == "null" || ToLower(v) == "~"
  }

  predicate IsTruth(v: string) {
    ToLower(v) == "true" || ToLower(v) == "false"
  }

  /** A number with a leading zero, which is read as octal, or with a plus sign. */
  predicate IsOddNumber(v: string) {
    v != "" && (v[0] == '+' || (v[0] == '0' && v != "0" && forall i :: 0 <= i < |v| ==> v[i] != '.'))
  }

  /** Text a parser could take for structure, or whose blanks it would drop. */
  predicate IsStructure(v: string) {
    v != "" && (HasOneOf(v, ":#{}[],&*!|>'\"%") || v[0] in "@`-?" || !Trimmed(v, SPACE))
  }

  /** What is written in quotes: nothing at all, a YAML word, an odd number, and structure; true and false
      are written in small letters, and everything else as it is. */
  lemma WhatIsQuoted(v: string, isNumber: string -> bool)
    ensures FormatScalar(v, isNumber) ==
            if v == "" || IsYamlWord(v) then Quote(v)
            else if IsTruth(v) then ToLower(v)
            else if isNumber(v) then (if IsOddNumber(v) then Quote(v) else v)
            else if IsStructure(v) then Quote(v) else v
  {
    hide ToLower;
    hide Escaped;
    TrimmedFixed(v, SPACE);
    hide TrimLeft;
    hide TrimRight;
    assert Escaped("") == "" by {
      EmptyEscapes();
    }
    assert NoneIn(v, STRUCTURE) <==> !HasOneOf(v, ":#{}[],&*!|>'\"%") by {
      forall c ensures c in STRUCTURE <==> c in ":#{}[],&*!|>'\"%" {
      }
    }
    if v != "" {
      LeadersAre(v[0]);
    }
  }

  lemma EmptyEscapes()
    ensures Escaped("") == ""
  {
  }

  lemma LeadersAre(c: char)
    ensures c in LEADERS <==> c in "@`-?"
  {
  }
}
