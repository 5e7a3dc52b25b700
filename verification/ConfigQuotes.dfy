/** Comments on lines with quotes (cutComment, internal/config/edit.go), said of the pieces of the text. */
module ConfigQuotes {
  import opened Text
  import opened ConfigLines
  import opened ConfigPaths
  import opened ConfigEdit
  import opened ConfigLaws

  datatype Piece = Loose(text: string) | Between(quote: char, text: string)

  /** Bare text has no quote, and no '#' at its start or behind a blank; quoted text is between two
      quotes that it does not hold itself. */
  predicate WellFormed(p: Piece) {
    match p
    case Loose(t) =>
      (forall k :: 0 <= k < |t| ==> t[k] != '\'' && t[k] != '"')
      && forall k :: 0 <= k < |t| && t[k] == '#' ==> k > 0 && t[k - 1] != ' ' && t[k - 1] != '\t'
    case Between(q, t) => (q == '\'' || q == '"') && forall k :: 0 <= k < |t| ==> t[k] != q
  }

  function Written(p: Piece): string {
    match p
    case Loose(t) => t
    case Between(q, t) => [q] + t + [q]
  }

  function Whole(pieces: seq<Piece>): string {
    if pieces == [] then "" else Whole(pieces[..|pieces| - 1]) + Written(pieces[|pieces| - 1])
  }

  lemma {:induction false} StaysOpen(q: char, t: string)
    requires q != NO_QUOTE && forall k :: 0 <= k < |t| ==> t[k] != q
    ensures QuoteFrom(q, t) == q
  {
    if t != "" {
      StaysOpen(q, t[..|t| - 1]);
    }
  }

  lemma {:induction false} StaysClosed(t: string)
    requires forall k :: 0 <= k < |t| ==> t[k] != '\'' && t[k] != '"'
    ensures QuoteFrom(NO_QUOTE, t) == NO_QUOTE
  {
    if t != "" {
      StaysClosed(t[..|t| - 1]);
    }
  }

  lemma OpensAndCloses(q: char, t: string)
    requires q == '\'' || q == '"'
    requires forall k :: 0 <= k < |t| ==> t[k] != q
    ensures QuoteFrom(NO_QUOTE, [q] + t) == q && QuoteFrom(NO_QUOTE, [q] + t + [q]) == NO_QUOTE
  {
    StaysOpen(q, t);
    assert [q][..0] == "";
    QuoteConcat(NO_QUOTE, [q], t);
    QuoteConcat(NO_QUOTE, [q] + t, [q]);
  }

  lemma OpenIsSafe(front: string, t: string, j: nat)
    requires QuoteFrom(NO_QUOTE, front) == NO_QUOTE && WellFormed(Loose(t))
    ensures QuoteFrom(NO_QUOTE, front + t) == NO_QUOTE
    ensures |front| <= j < |front| + |t| ==> !OpensComment(front + t, j)
  {
    QuoteConcat(NO_QUOTE, front, t);
    StaysClosed(t);
    hide QuoteFrom;
    var s := front + t;
    assert forall k :: |front| <= k < |s| ==> s[k] == t[k - |front|];
  }

  lemma BetweenIsSafe(front: string, q: char, t: string, j: nat)
    requires QuoteFrom(NO_QUOTE, front) == NO_QUOTE && WellFormed(Between(q, t))
    ensures QuoteFrom(NO_QUOTE, front + ([q] + t + [q])) == NO_QUOTE
    ensures |front| <= j < |front| + |t| + 2 ==> !OpensComment(front + ([q] + t + [q]), j)
  {
    hide QuoteFrom;
    OpensAndCloses(q, t);
    QuoteConcat(NO_QUOTE, front, [q] + t + [q]);
    var s := front + ([q] + t + [q]);
    assert s[|front|] == q && s[|s| - 1] == q;
    if |front| < j < |s| - 1 {
      var inside := t[..j - |front| - 1];
      OpensAndCloses(q, inside);
      assert s[..j] == front + ([q] + inside);
      QuoteConcat(NO_QUOTE, front, [q] + inside);
    }
  }

  /** Behind text that leaves no quote open, a well-formed piece leaves none open, and no comment starts
      in it. */
  lemma PieceIsSafe(front: string, p: Piece, j: nat)
    requires QuoteFrom(NO_QUOTE, front) == NO_QUOTE && WellFormed(p)
    ensures QuoteFrom(NO_QUOTE, front + Written(p)) == NO_QUOTE
    ensures |front| <= j < |front| + |Written(p)| ==> !OpensComment(front + Written(p), j)
  {
    hide OpensComment;
    hide QuoteFrom;
    match p
    case Loose(t) => OpenIsSafe(front, t, j);
    case Between(q, t) => BetweenIsSafe(front, q, t, j);
  }

  lemma NothingOpensBeyond(s: string)
    ensures forall j :: j >= |s| ==> !OpensComment(s, j)
  {
  }

  lemma {:induction false} PiecesAreSafe(pieces: seq<Piece>)
    requires forall i :: 0 <= i < |pieces| ==> WellFormed(pieces[i])
    ensures QuoteFrom(NO_QUOTE, Whole(pieces)) == NO_QUOTE
    ensures forall j :: !OpensComment(Whole(pieces), j)
  {
    hide Written;
    hide OpensComment;
    hide WellFormed;
    assert forall j :: !OpensComment("", j) by {
      NothingOpensBeyond("");
    }
    assert QuoteFrom(NO_QUOTE, "") == NO_QUOTE;
    hide QuoteFrom;
    if pieces != [] {
      var front, p := Whole(pieces[..|pieces| - 1]), pieces[|pieces| - 1];
      PiecesAreSafe(pieces[..|pieces| - 1]);
      PieceIsSafe(front, p, 0);
      NothingOpensBeyond(front + Written(p));
      forall j: nat ensures !OpensComment(Whole(pieces), j) {
        if j < |front| && OpensComment(front + Written(p), j) {
          OpensCommentPrefix(front, Written(p), j);
        }
        PieceIsSafe(front, p, j);
      }
    }
  }

  predicate Blanks(s: string) {
    forall k :: 0 <= k < |s| ==> s[k] == ' ' || s[k] == '\t'
  }

  /** Behind text with no quote open and no comment in it, blanks and a '#' start the comment. */
  lemma StripsBehind(t: string, gap: string, rest: string)
    requires QuoteFrom(NO_QUOTE, t) == NO_QUOTE && forall j :: !OpensComment(t, j)
    requires Blanks(gap) && (gap != "" || t == "")
    ensures StripComment(t) == t && StripComment(t + gap + "#" + rest) == t + gap
  {
    var head := t + gap;
    var s := head + "#" + rest;
    CommentAtLeast(t, |t|);
    StaysClosed(gap);
    QuoteConcat(NO_QUOTE, t, gap);
    hide QuoteFrom;
    assert s[..|head|] == head && s[|head|] == '#';
    assert forall k :: |t| <= k < |head| ==> s[k] == gap[k - |t|];
    assert s == t + (gap + "#" + rest);
    forall j: nat | j < |head| ensures !OpensComment(s, j) {
      if j < |t| && OpensComment(s, j) {
        OpensCommentPrefix(t, gap + "#" + rest, j);
      }
    }
    assert OpensComment(s, |head|);
    CommentAtLeast(s, |head|);
  }

  /** The comment starts at the first '#' behind a blank that is not between two quotes of either kind,
      and nowhere else. */
  lemma StripsTheComment(pieces: seq<Piece>, gap: string, rest: string)
    requires forall i :: 0 <= i < |pieces| ==> WellFormed(pieces[i])
    requires Blanks(gap) && gap != ""
    ensures StripComment(Whole(pieces)) == Whole(pieces)
    ensures StripComment(Whole(pieces) + gap + "#" + rest) == Whole(pieces) + gap
  {
    PiecesAreSafe(pieces);
    hide Whole;
    StripsBehind(Whole(pieces), gap, rest);
  }

  lemma {:induction false} LeadIsAPiece(lead: string, pieces: seq<Piece>)
    ensures Whole([Loose(lead)] + pieces) == lead + Whole(pieces)
  {
    hide Written;
    var all := [Loose(lead)] + pieces;
    if pieces == [] {
      assert all[..0] == [] && all == [Loose(lead)];
      OpenIsItself(lead);
    } else {
      var front, p := pieces[..|pieces| - 1], pieces[|pieces| - 1];
      assert all[..|all| - 1] == [Loose(lead)] + front && all[|all| - 1] == p;
      LeadIsAPiece(lead, front);
      Assoc(lead, Whole(front), Written(p));
    }
  }

  lemma OpenIsItself(t: string)
    ensures Written(Loose(t)) == t && "" + t == t && t + "" == t
  {
  }

  /** The value on a line: the text behind the colon up to the comment, less the blanks around it. */
  lemma ValueIsText(before: string, lead: string, pieces: seq<Piece>, gap: string, rest: string)
    requires forall i :: 0 <= i < |pieces| ==> WellFormed(pieces[i])
    requires ':' !in before && Blanks(lead) && Blanks(gap) && gap != ""
    requires Trimmed(Whole(pieces), SPACE)
    ensures ValueOf(before + ":" + (lead + Whole(pieces))) == Whole(pieces)
    ensures ValueOf(before + ":" + (lead + Whole(pieces) + gap + "#" + rest)) == Whole(pieces)
  {
    hide Whole;
    hide StripComment;
    hide TrimLeft;
    hide TrimRight;
    hide ValueOf;
    LooseLead(lead, pieces, gap, rest);
    var t := Whole(pieces);
    ValueIsStripped(before, lead + t);
    ValueIsStripped(before, lead + t + gap + "#" + rest);
    TrimmedFixed(t, SPACE);
    TrimAround(lead, t, "", SPACE);
    TrimAround(lead, t, gap, SPACE);
    assert lead + t + "" == lead + t;
  }

  lemma BlanksAreLoose(lead: string)
    requires Blanks(lead)
    ensures WellFormed(Loose(lead))
  {
  }

  lemma LooseLead(lead: string, pieces: seq<Piece>, gap: string, rest: string)
    requires forall i :: 0 <= i < |pieces| ==> WellFormed(pieces[i])
    requires Blanks(lead) && Blanks(gap) && gap != ""
    ensures StripComment(lead + Whole(pieces)) == lead + Whole(pieces)
    ensures StripComment(lead + Whole(pieces) + gap + "#" + rest) == lead + Whole(pieces) + gap
  {
    hide *;
    BlanksAreLoose(lead);
    var all := [Loose(lead)] + pieces;
    assert forall i :: 0 < i < |all| ==> all[i] == pieces[i - 1];
    LeadIsAPiece(lead, pieces);
    StripsTheComment([Loose(lead)] + pieces, gap, rest);
  }

  lemma ValueIsStripped(before: string, after: string)
    requires ':' !in before
    ensures ValueOf(before + ":" + after) == TrimSpace(StripComment(after))
  {
    CutUnique(before, ':', after);
  }

  /** A quoted value, of either kind of quote and whatever else it holds, reads as it is written, with a
      comment behind it or without. */
  lemma QuotedReads(before: string, q: char, v: string, blank: char, rest: string)
    requires ':' !in before && (q == '\'' || q == '"') && (forall k :: 0 <= k < |v| ==> v[k] != q)
    requires blank == ' ' || blank == '\t'
    ensures ValueOf(before + ":" + (" " + ([q] + v + [q]))) == [q] + v + [q]
    ensures ValueOf(before + ":" + (" " + ([q] + v + [q]) + [blank] + "#" + rest)) == [q] + v + [q]
  {
    var pieces := [Between(q, v)];
    assert pieces[..0] == [] && "" + Written(Between(q, v)) == Written(Between(q, v));
    assert Whole(pieces) == [q] + v + [q];
    ValueIsText(before, " ", pieces, [blank], rest);
  }

  /** In a file of that one line, that is what the key is read as. */
  lemma QuotedKeyReads(name: string, q: char, v: string, blank: char, rest: string)
    requires LegalName(name) && PlainName(name) && '.' !in name
    requires (q == '\'' || q == '"') && (forall k :: 0 <= k < |v| ==> v[k] != q) && '\n' !in v
    requires (blank == ' ' || blank == '\t') && '\n' !in rest
    ensures Get(name + ":" + (" " + ([q] + v + [q])), name) == Ok(Some([q] + v + [q]))
    ensures Get(name + ":" + (" " + ([q] + v + [q]) + [blank] + "#" + rest), name) == Ok(Some([q] + v + [q]))
  {
    hide ValueOf;
    hide Get;
    hide PlainName;
    LegalIsClean(name);
    QuotedReads(name, q, v, blank, rest);
    var short := " " + ([q] + v + [q]);
    var long := short + [blank] + "#" + rest;
    OneLineFile(name, short);
    OneLineFile(name, long);
  }

  lemma OneLineFile(name: string, after: string)
    requires LegalName(name) && PlainName(name) && '.' !in name && '\n' !in after
    ensures Get(name + ":" + after, name) == Ok(Some(ValueOf(name + ":" + after)))
  {
    var line := name + ":" + after;
    OneName(name);
    OneKind(name, after);
    SplitCons(line, '\n', "");
    hide ValueOf;
    hide Classify;
    hide KeyParts;
    hide Split;
    assert Kinds([line]) == [Entry(0, name)];
    OnePath(name);
  }

  lemma OneName(name: string)
    requires LegalName(name) && PlainName(name) && '.' !in name
    ensures KeyParts(name) == Ok([name])
  {
    TrimmedFixed(name, SPACE);
    SplitCons(name, '.', "");
    FaultlessIsLegal([name]);
  }

  lemma OneKind(name: string, after: string)
    requires LegalName(name) && PlainName(name)
    ensures Classify(name + ":" + after) == Entry(0, name)
  {
    LegalIsClean(name);
    SpacedName(0, name);
    assert Spaces(0) + name == name;
    HeadDecides(name, after);
  }

  lemma OnePath(name: string)
    ensures Locate([Entry(0, name)], [name]).Found? && Locate([Entry(0, name)], [name]).idx == 0
  {
    var ks := [Entry(0, name)];
    var none: Path := [];
    assert Open(ks, 0) == none && none[..0] + [name] == [name];
    assert PathAt(ks, 0) == Some([name]);
  }
}
