/** How a typed value is written into the configuration file (FormatScalar) and displayed again
    (unquote). Whether a word is a number is left to a parameter, as strconv.ParseFloat decides it. */
module ConfigScalar {
  import opened Text
  import opened ConfigLines
  import opened ConfigPaths
  import opened ConfigEdit
  import opened ConfigLaws

  // ----- strconv.Quote, on bytes --------------------------------------------------------------------

  function Hex(n: nat): char
    requires n < 16
  {
    "0123456789abcdef"[n]
  }

  function QuoteByte(c: char): string {
    if c == '"' then "\\\""
    else if c == '\\' then "\\\\"
    else if c == 7 as char then "\\a"
    else if c == 8 as char then "\\b"
    else if c == 12 as char then "\\f"
    else if c == '\n' then "\\n"
    else if c == '\r' then "\\r"
    else if c == '\t' then "\\t"
    else if c == 11 as char then "\\v"
    else if c < ' ' || c == 127 as char then "\\x" + [Hex(c as int / 16), Hex(c as int % 16)]
    else [c]
  }

  function Escaped(v: string): string {
    if v == "" then "" else QuoteByte(v[0]) + Escaped(v[1..])
  }

  function Quote(v: string): string {
    "\"" + Escaped(v) + "\""
  }

  /** Printable, and neither a double quote nor a backslash: quoting leaves the byte alone. */
  predicate Plain(v: string) {
    forall k :: 0 <= k < |v| ==> QuoteByte(v[k]) == [v[k]]
  }

  // ----- FormatScalar -------------------------------------------------------------------------------

  const WORDS: seq<string> := ["true", "false", "yes", "no", "on", "off", "null", "~"]

  const STRUCTURE: set<char> :=
    {':', '#', '{', '}', '[', ']', ',', '&', '*', '!', '|', '>', '\'', '"', '%'}

  const LEADERS: set<char> := {'@', '`', '-', '?'}

  predicate IsBool(v: string) {
    ToLower(v) == "true" || ToLower(v) == "false"
  }

  /** The values FormatScalar puts in double quotes. */
  predicate NeedsQuotes(v: string, isNumber: string -> bool) {
    if v == "" then true
    else if ToLower(v) in WORDS then !IsBool(v)
    else if isNumber(v) then (v[0] == '0' && v != "0" && '.' !in v) || v[0] == '+'
    else !NoneIn(v, STRUCTURE) || TrimSpace(v) != v || v[0] in LEADERS
  }

  function FormatScalar(v: string, isNumber: string -> bool): string {
    if v == "" then "\"\""
    else if ToLower(v) in WORDS then
      if IsBool(v) then ToLower(v) else Quote(v)
    else if isNumber(v) then
      if v[0] == '0' && v != "0" && '.' !in v then Quote(v)
      else if v[0] == '+' then Quote(v)
      else v
    else if !NoneIn(v, STRUCTURE) || TrimSpace(v) != v then Quote(v)
    else if v[0] in LEADERS then Quote(v)
    else v
  }

  function Unquote(v: string): string {
    if |v| >= 2 && ((v[0] == '"' && v[|v| - 1] == '"') || (v[0] == '\'' && v[|v| - 1] == '\''))
    then v[1..|v| - 1]
    else v
  }

  /** It takes off one pair of quotes of either kind... */
  lemma UnquoteTakesOff(q: char, t: string)
    requires q == '"' || q == '\''
    ensures Unquote([q] + t + [q]) == t
  {
    assert ([q] + t + [q])[1..|t| + 1] == t;
  }

  predicate Between(v: string, q: char, t: string) {
    v == [q] + t + [q]
  }

  /** ...and changes nothing else. */
  lemma UnquoteKeeps(v: string)
    requires forall t :: !Between(v, '"', t) && !Between(v, '\'', t)
    ensures Unquote(v) == v
  {
    if |v| >= 2 && v[0] == v[|v| - 1] {
      assert Between(v, v[0], v[1..|v| - 1]);
    }
  }

  /** What a value means to the file: booleans are lower-cased, everything else is itself. */
  function Meant(v: string): string {
    if IsBool(v) then ToLower(v) else v
  }

  /** What is known of ParseFloat: a number has no space, comment mark or quote in it. */
  ghost predicate Numeric(isNumber: string -> bool) {
    forall s :: isNumber(s) ==> NoneIn(s, SPACE + {'#', '\'', '"'})
  }

  /** What is written bare holds no quote and no comment mark, and is trimmed. */
  lemma BareIsQuiet(v: string, isNumber: string -> bool)
    requires Numeric(isNumber) && !NeedsQuotes(v, isNumber)
    ensures var f := FormatScalar(v, isNumber);
            f == Meant(v) && f != "" && NoneIn(f, {'#', '\'', '"'}) && Trimmed(f, SPACE)
  {
    TrimmedFixed(v, SPACE);
    if ToLower(v) in WORDS {
      assert ToLower(v) == "true" || ToLower(v) == "false";
    }
  }

  lemma QuotedIsQuoted(v: string, isNumber: string -> bool)
    requires NeedsQuotes(v, isNumber)
    ensures FormatScalar(v, isNumber) == Quote(v) && Meant(v) == v
  {
    assert v == "" ==> ToLower(v) == "" && Escaped(v) == "";
  }

  // ----- displaying what was written ------------------------------------------------------------------

  lemma {:induction false} EscapedPlain(v: string)
    ensures |Escaped(v)| >= |v|
    ensures Escaped(v) == v <==> Plain(v)
  {
    if v != "" {
      EscapedPlain(v[1..]);
      var c, t := QuoteByte(v[0]), Escaped(v[1..]);
      assert |c| == 1 ==> (c + t)[0] == c[0] && (c + t)[1..] == t;
      assert v == [v[0]] + v[1..];
    }
  }

  /** Unquoting gives the value back exactly when quoting had nothing to escape in it. */
  lemma UnquoteFormatScalar(v: string, isNumber: string -> bool)
    requires Numeric(isNumber)
    ensures Unquote(FormatScalar(v, isNumber)) == Meant(v) <==> (NeedsQuotes(v, isNumber) ==> Plain(v))
  {
    if NeedsQuotes(v, isNumber) {
      QuotedIsQuoted(v, isNumber);
      EscapedPlain(v);
      assert Quote(v)[1..|Quote(v)| - 1] == Escaped(v);
    } else {
      BareIsQuiet(v, isNumber);
    }
  }

  // ----- storing it -------------------------------------------------------------------------------------

  lemma {:induction false} QuoteStays(q: char, s: string)
    requires q != NO_QUOTE && q !in s
    ensures QuoteFrom(q, s) == q
  {
    if s != "" {
      QuoteStays(q, s[..|s| - 1]);
    }
  }

  lemma {:induction false} NothingOpens(q: char, s: string)
    requires q in {NO_QUOTE, '\'', '"'} && NoneIn(s, {'\'', '"'})
    ensures QuoteFrom(q, s) == q
  {
    if s != "" {
      NothingOpens(q, s[..|s| - 1]);
    }
  }

  /** A bare value is safe to store. */
  lemma QuietIsReadable(f: string, commented: bool)
    requires NoneIn(f, {'#', '\'', '"'}) && Trimmed(f, SPACE)
    ensures Readable(f, commented) <==> '\n' !in f
  {
    var t := " " + f;
    CommentAtLeast(t, |t|);
    NothingOpens(NO_QUOTE, t);
  }

  // ----- a value in double quotes -----------------------------------------------------------------------

  lemma {:induction false} EscapedMore(a: string, c: char)
    ensures Escaped(a + [c]) == Escaped(a) + QuoteByte(c)
    decreases |a|
  {
    if a == "" {
      assert a + [c] == [c] && [c][1..] == "";
    } else {
      assert (a + [c])[1..] == a[1..] + [c];
      EscapedMore(a[1..], c);
      Assoc(QuoteByte(a[0]), Escaped(a[1..]), QuoteByte(c));
      hide QuoteByte;
    }
  }

  /** The escape of a byte holds no newline; a comment mark, a blank or a quote only where the byte is
      one. */
  lemma QuoteByteParts(c: char)
    ensures QuoteByte(c) != "" && '\n' !in QuoteByte(c)
    ensures QuoteByte(c) == [c] || QuoteByte(c) == ['\\', c] || NoneIn(QuoteByte(c), {'#', ' ', '\t', '\'', '"'})
    ensures c in {'#', ' ', '\''} ==> QuoteByte(c) == [c]
    ensures c == '"' <==> QuoteByte(c) == "\\\""
    ensures '\t' !in QuoteByte(c)
  {
    assert forall n :: 0 <= n < 16 ==> "0123456789abcdef"[n] !in {'\n', '\t', '#', ' ', '\'', '"'};
  }

  lemma EscapedByteHash(c: char, k: nat)
    requires k < |QuoteByte(c)| && QuoteByte(c)[k] == '#'
    ensures c == '#' && k == 0
  {
    QuoteByteParts(c);
    hide QuoteByte;
  }

  /** What is open after one more byte. */
  lemma QuoteStep(q: char, s: string, c: char)
    ensures QuoteFrom(q, s + [c]) == QuoteFrom(QuoteFrom(q, s), [c])
  {
    QuoteConcat(q, s, [c]);
  }

  /** Escaping a byte does not change what it opens or closes. */
  lemma EscapeOpensAlike(q: char, c: char)
    requires q in {NO_QUOTE, '\'', '"'}
    ensures QuoteFrom(q, QuoteByte(c)) == QuoteFrom(q, [c])
  {
    QuoteByteParts(c);
    if c == '"' {
      assert QuoteByte(c)[..1] == "\\" && "\\"[..0] == "";
      assert QuoteFrom(q, "\\") == q;
    } else if QuoteByte(c) != [c] {
      hide QuoteByte;
      assert NoneIn(QuoteByte(c), {'\'', '"'}) && c !in {'\'', '"'};
      NothingOpens(q, QuoteByte(c));
      NothingOpens(q, [c]);
    }
  }

  /** So the escaped text opens and closes what the text does. */
  lemma {:induction false} EscapedOpensAlike(v: string)
    ensures QuoteFrom('"', Escaped(v)) == QuoteFrom('"', v)
    ensures QuoteFrom('"', v) in {NO_QUOTE, '\'', '"'}
  {
    if v != "" {
      var a, c := v[..|v| - 1], v[|v| - 1];
      assert v == a + [c];
      EscapedOpensAlike(a);
      EscapedMore(a, c);
      QuoteConcat('"', Escaped(a), QuoteByte(c));
      EscapeOpensAlike(QuoteFrom('"', a), c);
      QuoteStep('"', a, c);
    }
  }

  /** A '#' of the text that stands behind a space. */
  predicate SpacedHash(v: string, i: nat) {
    0 < i < |v| && v[i] == '#' && v[i - 1] == ' '
  }

  /** Escaped text ends in a blank exactly when the text ends in a space. */
  lemma EscapedEnd(a: string)
    requires a != ""
    ensures var e := Escaped(a); e != "" && (e[|e| - 1] in BLANK <==> a[|a| - 1] == ' ')
  {
    var b, d := a[..|a| - 1], a[|a| - 1];
    assert a == b + [d];
    EscapedMore(b, d);
    QuoteByteParts(d);
    hide QuoteByte;
    hide Escaped;
    assert Escaped(a)[|Escaped(a)| - 1] == QuoteByte(d)[|QuoteByte(d)| - 1];
  }

  /** A '#' of the escaped text behind a blank is a '#' of the text behind a space, and what is before
      the one is the escape of what is before the other. */
  lemma {:induction false} EscapedHash(v: string, m: nat) returns (i: nat)
    requires 0 < m < |Escaped(v)| && Escaped(v)[m] == '#' && Escaped(v)[m - 1] in BLANK
    ensures SpacedHash(v, i) && Escaped(v)[..m] == Escaped(v[..i])
  {
    assert v != "";
    var a, c := v[..|v| - 1], v[|v| - 1];
    assert v == a + [c];
    EscapedMore(a, c);
    assert a == "" ==> Escaped(a) == "";
    var e, q := Escaped(a), QuoteByte(c);
    hide QuoteByte;
    hide Escaped;
    if m < |e| {
      i := EscapedHash(a, m);
      assert a[..i] == v[..i];
      assert (e + q)[..m] == e[..m];
    } else {
      EscapedByteHash(c, m - |e|);
      i := |a|;
      EscapedEnd(a);
      assert v[..i] == a && (e + q)[..m] == e;
    }
  }

  /** And every such '#' is there. */
  lemma {:induction false} HashEscaped(v: string, i: nat) returns (m: nat)
    requires SpacedHash(v, i)
    ensures 0 < m < |Escaped(v)| && Escaped(v)[m] == '#' && Escaped(v)[m - 1] in BLANK
    ensures Escaped(v)[..m] == Escaped(v[..i])
  {
    hide QuoteByte;
    hide Escaped;
    var a, c := v[..|v| - 1], v[|v| - 1];
    assert v == a + [c];
    EscapedMore(a, c);
    QuoteByteParts(c);
    var e, q := Escaped(a), QuoteByte(c);
    if i < |a| {
      m := HashEscaped(a, i);
      assert a[..i] == v[..i];
      assert (e + q)[..m] == e[..m];
    } else {
      m := |e|;
      EscapedEnd(a);
      assert v[..i] == a && (e + q)[..m] == e;
    }
  }

  /** Every '#' behind a space stands inside quotes, as quotes are counted without knowing escapes. */
  predicate HashesAreQuoted(v: string) {
    forall i :: 0 < i < |v| && SpacedHash(v, i) ==> QuoteFrom('"', v[..i]) != NO_QUOTE
  }

  /** What is open in the middle of a quoted value, behind the space it is written after. */
  lemma InsideQuotes(v: string, m: nat)
    requires m <= |Escaped(v)|
    ensures (" " + Quote(v))[..m + 2] == " \"" + Escaped(v)[..m]
    ensures QuoteFrom(NO_QUOTE, (" " + Quote(v))[..m + 2]) == QuoteFrom('"', Escaped(v)[..m])
  {
    var open := " \"";
    assert QuoteFrom(NO_QUOTE, open) == '"' by {
      assert open[..1] == " ";
      QuoteOverSpaces(NO_QUOTE, " ");
    }
    assert (" " + Quote(v))[..m + 2] == open + Escaped(v)[..m];
    QuoteConcat(NO_QUOTE, open, Escaped(v)[..m]);
  }

  /** No comment opens inside a quoted value exactly when every '#' behind a space is quoted. */
  lemma QuotedIsSafeIff(v: string)
    ensures CommentSafe(Quote(v)) <==> HashesAreQuoted(v)
  {
    var t, e := " " + Quote(v), Escaped(v);
    CommentAtLeast(t, |t|);
    assert |t| == |e| + 3 && t[0] == ' ' && t[1] == '"' && t[|t| - 1] == '"';
    assert forall k :: 0 <= k < |e| ==> t[k + 2] == e[k];
    hide Quote;
    hide Escaped;
    hide CommentAt;
    hide QuoteFrom;
    if HashesAreQuoted(v) {
      forall j: nat | j < |t| ensures !OpensComment(t, j) {
        if 2 < j < |t| - 1 && t[j] == '#' && t[j - 1] in BLANK {
          assert t[j - 2 + 2] == e[j - 2] && t[j - 3 + 2] == e[j - 3];
          var i := EscapedHash(v, j - 2);
          InsideQuotes(v, j - 2);
          EscapedOpensAlike(v[..i]);
        }
      }
    } else {
      var i :| 0 < i < |v| && SpacedHash(v, i) && QuoteFrom('"', v[..i]) == NO_QUOTE;
      var m := HashEscaped(v, i);
      InsideQuotes(v, m);
      EscapedOpensAlike(v[..i]);
      assert t[m + 2] == e[m] && t[m - 1 + 2] == e[m - 1];
      assert OpensComment(t, m + 2);
    }
  }

  /** A quoted value leaves no quote open exactly when its own quotes pair up. */
  lemma QuotedClosesIff(v: string)
    ensures Closed(Quote(v)) <==> QuoteFrom('"', v) == '"'
  {
    var t := " " + Quote(v);
    InsideQuotes(v, |Escaped(v)|);
    EscapedOpensAlike(v);
    assert Escaped(v)[..|Escaped(v)|] == Escaped(v);
    assert t == t[..|t| - 1] + "\"";
    QuoteStep(NO_QUOTE, t[..|t| - 1], '"');
    assert "\""[..0] == "";
  }

  lemma {:induction false} EscapedHasNoNewline(v: string)
    ensures '\n' !in Escaped(v)
  {
    if v != "" {
      EscapedHasNoNewline(v[1..]);
      QuoteByteParts(v[0]);
      hide QuoteByte;
    }
  }

  /** A quoted value reads back exactly when every '#' behind a space stands inside quotes and, on a
      line with a comment, the value's own quotes pair up. */
  lemma QuotedReadable(v: string, commented: bool)
    ensures Readable(Quote(v), commented) <==> HashesAreQuoted(v) && (commented ==> QuoteFrom('"', v) == '"')
  {
    hide Escaped;
    hide HashesAreQuoted;
    EscapedHasNoNewline(v);
    QuotedIsSafeIff(v);
    QuotedClosesIff(v);
  }

  /** What FormatScalar writes can be stored and read back exactly when: written in quotes, every '#'
      behind a space stands inside quotes and, on a line with a comment, the value's own quotes pair
      up; written bare, it holds no newline. */
  lemma FormatScalarReadable(v: string, isNumber: string -> bool, commented: bool)
    requires Numeric(isNumber)
    ensures Readable(FormatScalar(v, isNumber), commented) <==>
            if NeedsQuotes(v, isNumber) then HashesAreQuoted(v) && (commented ==> QuoteFrom('"', v) == '"')
            else '\n' !in v
  {
    hide FormatScalar;
    hide NeedsQuotes;
    hide HashesAreQuoted;
    hide CommentAt;
    if NeedsQuotes(v, isNumber) {
      QuotedIsQuoted(v, isNumber);
      QuotedReadable(v, commented);
    } else {
      BareIsQuiet(v, isNumber);
      QuietIsReadable(FormatScalar(v, isNumber), commented);
      if IsBool(v) {
        NewlineSurvivesLower(v);
      }
    }
  }

  /** So a value without a double quote is always safe in quotes. */
  lemma WithoutDoubleQuotes(v: string)
    requires '"' !in v
    ensures HashesAreQuoted(v) && QuoteFrom('"', v) == '"'
  {
    QuoteStays('"', v);
    forall i | 0 < i < |v| && SpacedHash(v, i) ensures QuoteFrom('"', v[..i]) != NO_QUOTE {
      QuoteStays('"', v[..i]);
    }
  }

  lemma NewlineSurvivesLower(v: string)
    ensures '\n' in v ==> '\n' in ToLower(v)
  {
    if '\n' in v {
      var k :| 0 <= k < |v| && v[k] == '\n';
      assert ToLower(v)[k] == '\n';
    }
  }

  /** A newline alone is not among what FormatScalar quotes, so this value spills over two lines. */
  lemma NewlineIsWrittenBare(isNumber: string -> bool)
    requires Numeric(isNumber)
    ensures FormatScalar("a\nb", isNumber) == "a\nb"
    ensures !Readable(FormatScalar("a\nb", isNumber), false)
  {
    hide CommentSafe;
    hide Closed;
    hide Quote;
    hide TrimLeft;
    hide TrimRight;
    var v := "a\nb";
    assert ToLower(v)[1] == '\n';
    assert v[1] in SPACE;
    TrimmedFixed(v, SPACE);
  }

  /** cutComment does not know the backslash with which a double quote is escaped: behind it a
      '#' in the value starts a comment. */
  lemma EscapedQuoteIsUnsafe(isNumber: string -> bool)
    requires Numeric(isNumber)
    ensures !Readable(FormatScalar("a\" #b", isNumber), false)
  {
    hide Readable;
    hide FormatScalar;
    var v := "a\" #b";
    assert v[3] == '#' && ToLower(v)[3] == '#';
    assert v[1] in SPACE + {'#', '\'', '"'};
    FormatScalarReadable(v, isNumber, false);
    assert SpacedHash(v, 3);
    assert v[..3][..2] == v[..2] && v[..2][..1] == v[..1] && v[..1][..0] == "";
    assert QuoteFrom('"', v[..1]) == '"' && QuoteFrom('"', v[..2]) == NO_QUOTE;
  }

  /** The whole way: a printable value without quote or backslash, formatted, set on a key that is
      present, read back and unquoted, is the value that was meant. */
  lemma TypedValueComesBack(body: string, key: string, v: string, isNumber: string -> bool)
    requires Numeric(isNumber) && Plain(v)
    requires Get(body, key).Ok? && Get(body, key).value.Some?
    ensures Set(body, key, FormatScalar(v, isNumber)).Ok?
    ensures var out := Set(body, key, FormatScalar(v, isNumber)).value;
            Get(out, key).Ok? && Get(out, key).value.Some? && Unquote(Get(out, key).value.value) == Meant(v)
  {
    var f := FormatScalar(v, isNumber);
    PlainIsPrintable(v);
    WithoutDoubleQuotes(v);
    FormatScalarReadable(v, isNumber, HasComment(LinesOf(body)[LineOf(body, key)]));
    SetThenGetPresent(body, key, f);
    UnquoteFormatScalar(v, isNumber);
  }

  /** And set on a key that is absent, exactly when the file can take the key there. */
  lemma TypedValueIsAdded(body: string, key: string, v: string, isNumber: string -> bool)
    requires Numeric(isNumber) && Plain(v)
    requires Get(body, key) == Ok(None) && Set(body, key, FormatScalar(v, isNumber)).Ok?
    ensures var out := Set(body, key, FormatScalar(v, isNumber)).value;
            Get(out, key).Ok? && Get(out, key).value.Some? && Unquote(Get(out, key).value.value) == Meant(v) <==>
            PlainName(Last(KeyParts(key).value)) && SectionIsLast(Kinds(LinesOf(body)), KeyParts(key).value)
  {
    var f := FormatScalar(v, isNumber);
    var out := Set(body, key, f).value;
    PlainIsPrintable(v);
    WithoutDoubleQuotes(v);
    FormatScalarReadable(v, isNumber, false);
    UnquoteFormatScalar(v, isNumber);
    SetThenGetAbsent(body, key, f);
    hide FormatScalar;
    hide Unquote;
    hide Meant;
    if Get(out, key).Ok? && Get(out, key).value.Some? {
      OnlyPlainIsRead(out, key);
      AddedReads(body, key, f);
    }
  }

  lemma PlainIsPrintable(v: string)
    requires Plain(v)
    ensures '"' !in v && '\n' !in v
  {
  }
}
