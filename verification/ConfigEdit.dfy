/** Setting, reading and unsetting one dotted key in a body of text (internal/config/edit.go), by line. */
module ConfigEdit {
  import opened Text
  import opened ConfigLines
  import opened ConfigPaths

  const MAX_KEY_DEPTH := 3

  datatype EditError =
    | NoSetting
    | TooDeep(depth: nat)
    | EmptyComponent
    | BadName
    | OddIndent(line: nat, spaces: nat)
    | NoSection(path: Path)

  // ----- dotted keys --------------------------------------------------------------------------

  const NAME_BREAKERS: set<char> := {' ', '\t', ':', '#', '"', '\''}

  function FirstFault(parts: Path): Option<EditError> {
    if parts == [] then None
    else if parts[0] == "" then Some(EmptyComponent)
    else if !NoneIn(parts[0], NAME_BREAKERS) then Some(BadName)
    else FirstFault(parts[1..])
  }

  function KeyParts(key: string): (r: Result<Path, EditError>)
    ensures r.Ok? ==> |r.value| >= 1
  {
    var k := TrimSpace(key);
    if k == "" then Err(NoSetting)
    else
      var parts := Split(k, '.');
      if |parts| > MAX_KEY_DEPTH then Err(TooDeep(|parts|))
      else match FirstFault(parts)
        case Some(e) => Err(e)
        case None => Ok(parts)
  }

  predicate LegalName(s: string) {
    s != "" && NoneIn(s, NAME_BREAKERS)
  }

  lemma {:induction false} FaultlessIsLegal(parts: Path)
    ensures FirstFault(parts).None? <==> forall i :: 0 <= i < |parts| ==> LegalName(parts[i])
  {
    if parts != [] {
      FaultlessIsLegal(parts[1..]);
      if FirstFault(parts).None? {
        forall i | 0 <= i < |parts| ensures LegalName(parts[i]) {
          assert i > 0 ==> parts[i] == parts[1..][i - 1];
        }
      } else if LegalName(parts[0]) {
        var j :| 0 <= j < |parts[1..]| && !LegalName(parts[1..][j]);
        assert !LegalName(parts[j + 1]);
      }
    }
  }

  /** splitKey accepts exactly the dotted paths of one to three legal names. */
  lemma KeyPartsLegal(key: string)
    ensures KeyParts(key).Ok? <==>
            var parts := Split(TrimSpace(key), '.');
            |parts| <= MAX_KEY_DEPTH && forall i :: 0 <= i < |parts| ==> LegalName(parts[i])
  {
    var parts := Split(TrimSpace(key), '.');
    FaultlessIsLegal(parts);
    if TrimSpace(key) == "" {
      assert parts[0] == "";
    }
  }

  method SplitKey(key: string) returns (r: Result<Path, EditError>)
    ensures r == KeyParts(key)
  {
    var k := TrimSpace(key);
    if k == "" {
      return Err(NoSetting);
    }
    var parts := Split(k, '.');
    if |parts| > MAX_KEY_DEPTH {
      return Err(TooDeep(|parts|));
    }
    for i := 0 to |parts|
      invariant FirstFault(parts) == FirstFault(parts[i..])
    {
      assert parts[i..][1..] == parts[i + 1..];
      if parts[i] == "" {
        return Err(EmptyComponent);
      }
      if !NoneIn(parts[i], NAME_BREAKERS) {
        return Err(BadName);
      }
    }
    return Ok(parts);
  }

  // ----- editing lines --------------------------------------------------------------------------

  function Spaces(n: nat): string {
    seq(n, _ => ' ')
  }

  function NewLine(parts: Path, value: string): string
    requires |parts| > 0
  {
    Spaces((|parts| - 1) * INDENT_WIDTH) + parts[|parts| - 1] + ": " + value
  }

  function InsertLine(lines: seq<string>, at: nat, line: string): seq<string>
    requires at <= |lines|
  {
    lines[..at] + [line] + lines[at..]
  }

  /** The index behind the last line that is not blank. */
  function EndOfText(lines: seq<string>): (r: nat)
    ensures r <= |lines|
    ensures forall j :: r <= j < |lines| ==> TrimSpace(lines[j]) == ""
    ensures r > 0 ==> TrimSpace(lines[r - 1]) != ""
  {
    if lines == [] then 0
    else if TrimSpace(lines[|lines| - 1]) == "" then EndOfText(lines[..|lines| - 1])
    else |lines|
  }

  method AppendBeforeTrailingBlanks(lines: seq<string>, line: string) returns (out: seq<string>)
    ensures out == InsertLine(lines, EndOfText(lines), line)
  {
    var last := |lines| - 1;
    while last >= 0 && TrimSpace(lines[last]) == ""
      invariant -1 <= last < |lines|
      invariant forall j :: last < j < |lines| ==> TrimSpace(lines[j]) == ""
    {
      last := last - 1;
    }
    return lines[..last + 1] + [line] + lines[last + 1..];
  }

  function SetLines(lines: seq<string>, parts: Path, value: string): Result<seq<string>, EditError>
    requires |parts| > 0
  {
    match Locate(Kinds(lines), parts)
    case Refused(i, n) => Err(OddIndent(i + 1, n))
    case Found(i, _) => Ok(lines[i := ReplaceValue(lines[i], value)])
    case Absent(parent) =>
      if |parts| == 1 then Ok(InsertLine(lines, EndOfText(lines), NewLine(parts, value)))
      else if parent < 0 then Err(NoSection(parts[..|parts| - 1]))
      else Ok(InsertLine(lines, parent + 1, NewLine(parts, value)))
  }

  function GetLines(lines: seq<string>, parts: Path): Result<Option<string>, EditError> {
    match Locate(Kinds(lines), parts)
    case Refused(i, n) => Err(OddIndent(i + 1, n))
    case Found(i, _) => Ok(Some(ValueOf(lines[i])))
    case Absent(_) => Ok(None)
  }

  /** A line UnsetValue takes for a comment. */
  predicate HashLine(line: string) {
    TrimSpace(line) != "" && TrimSpace(line)[0] == '#'
  }

  /** The first of the comment lines immediately above line `i`. */
  function CommentsAbove(lines: seq<string>, i: nat): (r: nat)
    requires i <= |lines|
    ensures r <= i
  {
    if i > 0 && HashLine(lines[i - 1]) then CommentsAbove(lines, i - 1) else i
  }

  lemma {:induction false} CommentsAboveBlock(lines: seq<string>, i: nat)
    requires i <= |lines|
    ensures var r := CommentsAbove(lines, i);
            (forall j :: r <= j < i ==> HashLine(lines[j])) && (r > 0 ==> !HashLine(lines[r - 1]))
  {
    if i > 0 && HashLine(lines[i - 1]) {
      CommentsAboveBlock(lines, i - 1);
    }
  }

  function WithoutLines(lines: seq<string>, a: nat, b: nat): seq<string>
    requires a <= b <= |lines|
  {
    lines[..a] + lines[b..]
  }

  /** None when the key is absent. */
  function UnsetLines(lines: seq<string>, parts: Path): Result<Option<seq<string>>, EditError> {
    match Locate(Kinds(lines), parts)
    case Refused(i, n) => Err(OddIndent(i + 1, n))
    case Found(i, _) => Ok(Some(WithoutLines(lines, CommentsAbove(lines, i), i + 1)))
    case Absent(_) => Ok(None)
  }

  // ----- editing a body ---------------------------------------------------------------------------

  function LinesOf(body: string): (lines: seq<string>)
    ensures |lines| >= 1
  {
    Split(body, '\n')
  }

  function BodyOf(lines: seq<string>): string {
    Join(lines, ['\n'])
  }

  function Set(body: string, key: string, value: string): Result<string, EditError> {
    match KeyParts(key)
    case Err(e) => Err(e)
    case Ok(parts) =>
      match SetLines(LinesOf(body), parts, value)
      case Err(e) => Err(e)
      case Ok(lines) => Ok(BodyOf(lines))
  }

  function Get(body: string, key: string): Result<Option<string>, EditError> {
    match KeyParts(key)
    case Err(e) => Err(e)
    case Ok(parts) => GetLines(LinesOf(body), parts)
  }

  function Unset(body: string, key: string): Result<(string, bool), EditError> {
    match KeyParts(key)
    case Err(e) => Err(e)
    case Ok(parts) =>
      match UnsetLines(LinesOf(body), parts)
      case Err(e) => Err(e)
      case Ok(None) => Ok((body, false))
      case Ok(Some(lines)) => Ok((BodyOf(lines), true))
  }

  method EditLines(lines: seq<string>, parts: Path, value: string) returns (r: Result<seq<string>, EditError>)
    requires |parts| > 0
    ensures r == SetLines(lines, parts, value)
  {
    hide FirstStop;
    hide Kinds;
    hide ReplaceValue;
    hide NewLine;
    var found := FindKey(lines, parts);
    match found {
      case Refused(i, n) => return Err(OddIndent(i + 1, n));
      case Found(idx, _) =>
        return Ok(lines[idx := ReplaceValue(lines[idx], value)]);
      case Absent(parentIdx) =>
        if |parts| > 1 && parentIdx < 0 {
          return Err(NoSection(parts[..|parts| - 1]));
        }
        var line := NewLine(parts, value);
        if |parts| == 1 {
          var out := AppendBeforeTrailingBlanks(lines, line);
          return Ok(out);
        }
        return Ok(lines[..parentIdx + 1] + [line] + lines[parentIdx + 1..]);
    }
  }

  method SetValue(body: string, key: string, value: string) returns (r: Result<string, EditError>)
    ensures r == Set(body, key, value)
  {
    var split := SplitKey(key);
    if split.Err? {
      return Err(split.error);
    }
    var lines := LinesOf(body);
    var edited := EditLines(lines, split.value, value);
    match edited {
      case Err(e) => return Err(e);
      case Ok(out) => return Ok(BodyOf(out));
    }
  }

  method GetValue(body: string, key: string) returns (r: Result<Option<string>, EditError>)
    ensures r == Get(body, key)
  {
    var split := SplitKey(key);
    if split.Err? {
      return Err(split.error);
    }
    var lines := LinesOf(body);
    var found := FindKey(lines, split.value);
    match found {
      case Refused(i, n) => return Err(OddIndent(i + 1, n));
      case Absent(_) => return Ok(None);
      case Found(idx, _) =>
        var after := AfterColon(lines[idx]);
        return Ok(Some(TrimSpace(StripComment(after))));
    }
  }

  method UnsetValue(body: string, key: string) returns (r: Result<(string, bool), EditError>)
    ensures r == Unset(body, key)
  {
    hide Locate;
    hide Kinds;
    hide KeyParts;
    hide HashLine;
    var split := SplitKey(key);
    if split.Err? {
      return Err(split.error);
    }
    var lines := LinesOf(body);
    var found := FindKey(lines, split.value);
    match found {
      case Refused(i, n) => return Err(OddIndent(i + 1, n));
      case Absent(_) => return Ok((body, false));
      case Found(idx, _) =>
        var start := idx;
        while start > 0 && HashLine(lines[start - 1])
          invariant 0 <= start <= idx
          invariant CommentsAbove(lines, idx) == CommentsAbove(lines, start)
        {
          start := start - 1;
        }
        return Ok((BodyOf(lines[..start] + lines[idx + 1..]), true));
    }
  }
}
