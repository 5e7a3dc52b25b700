/** The database name `ratline new` derives from a domain (internal/cli/cmd_new.go), and the
    validator it has to pass (internal/validate/mongo.go): when the derived name is one the plan can
    use, and when it is one of the server's own. */
module DatabaseName {
  import opened Text

  const UNDERSCORE: set<char> := {'_'}

  predicate Alphanumeric(c: char) {
    'a' <= c <= 'z' || '0' <= c <= '9'
  }

  function Mapped(c: char): char {
    if Alphanumeric(LowerByte(c)) then LowerByte(c) else '_'
  }

  function MapAll(domain: string): string {
    seq(|domain|, i requires 0 <= i < |domain| => Mapped(domain[i]))
  }

  const MAX_NAME := 38

  function DerivedName(domain: string): string {
    var name := Trim(MapAll(domain), UNDERSCORE);
    if |name| > MAX_NAME then Trim(name[..MAX_NAME], UNDERSCORE) else name
  }

  method DatabaseNameFor(domain: string) returns (name: string)
    ensures name == DerivedName(domain)
  {
    var b := "";
    for i := 0 to |domain|
      invariant b == MapAll(domain[..i])
    {
      var r := LowerByte(domain[i]);
      b := b + [if Alphanumeric(r) then r else '_'];
    }
    assert domain[..|domain|] == domain;
    name := Trim(b, UNDERSCORE);
    if |name| > MAX_NAME {
      name := Trim(name[..MAX_NAME], UNDERSCORE);
    }
  }

  const SYSTEM_DATABASES: set<string> := {"admin", "local", "config"}

  predicate NameByte(c: char) {
    Alphanumeric(LowerByte(c)) || c == '-' || c == '_'
  }

  /** validate.DatabaseName, on names of bytes NameByte allows in any case. */
  predicate UsableName(name: string) {
    0 < |name| <= MAX_NAME && name[0] != '-'
    && (forall i :: 0 <= i < |name| ==> NameByte(name[i]))
    && ToLower(name) !in SYSTEM_DATABASES
  }

  /** The validator: one to 38 letters, digits, hyphens and underscores, no hyphen first, and in no case
      one of the server's own names. */
  lemma UsableNameIs(name: string)
    ensures UsableName(name) <==>
            1 <= |name| <= 38 && name[0] != '-'
            && (forall i :: 0 <= i < |name| ==>
                  'a' <= name[i] <= 'z' || 'A' <= name[i] <= 'Z' || '0' <= name[i] <= '9'
                  || name[i] == '-' || name[i] == '_')
            && ToLower(name) != "admin" && ToLower(name) != "local" && ToLower(name) != "config"
  {
    hide ToLower;
    forall c ensures NameByte(c) <==>
        'a' <= c <= 'z' || 'A' <= c <= 'Z' || '0' <= c <= '9' || c == '-' || c == '_' {
    }
  }

  /** The mapped domain is the name of one of the server's own databases, or such a name padded with
      underscores past the limit. */
  predicate Shadowing(whole: string) {
    whole in SYSTEM_DATABASES
    || (|whole| > MAX_NAME
        && exists w :: w in SYSTEM_DATABASES && |w| <= MAX_NAME && w <= whole
                       && AllIn(whole[|w|..MAX_NAME], UNDERSCORE))
  }

  lemma TruncatedName(whole: string)
    requires |whole| > MAX_NAME && whole[0] != '_'
    ensures var name := Trim(whole[..MAX_NAME], UNDERSCORE);
            name != "" && name <= whole && |name| <= MAX_NAME && AllIn(whole[|name|..MAX_NAME], UNDERSCORE)
    ensures forall w :: w in SYSTEM_DATABASES && |w| <= MAX_NAME && w <= whole
                        && AllIn(whole[|w|..MAX_NAME], UNDERSCORE)
              ==> w == Trim(whole[..MAX_NAME], UNDERSCORE)
  {
    var cut := whole[..MAX_NAME];
    var l, r := TrimParts(cut, UNDERSCORE);
    var name := Trim(cut, UNDERSCORE);
    assert l == "";
    assert cut == name + r;
    assert name != "";
    assert whole[|name|..MAX_NAME] == r;
    forall w | w in SYSTEM_DATABASES && |w| <= MAX_NAME && w <= whole && AllIn(whole[|w|..MAX_NAME], UNDERSCORE)
      ensures w == name
    {
      TrimPad("", w, whole[|w|..MAX_NAME], UNDERSCORE);
      assert "" + w + whole[|w|..MAX_NAME] == cut;
    }
  }

  lemma MappedToUnderscore(c: char)
    ensures Mapped(c) == '_' <==> !Alphanumeric(LowerByte(c))
  {
  }

  /** Trimming leaves the part between the first and the last byte that is no underscore. */
  lemma TrimmedMiddle(mapped: string) returns (start: nat)
    ensures var whole := Trim(mapped, UNDERSCORE);
            start + |whole| <= |mapped| && Trimmed(whole, UNDERSCORE)
            && (forall i :: 0 <= i < |whole| ==> whole[i] == mapped[start + i])
            && forall i :: 0 <= i < start || start + |whole| <= i < |mapped| ==> mapped[i] == '_'
  {
    hide Trim;
    var l, r := TrimParts(mapped, UNDERSCORE);
    var whole := Trim(mapped, UNDERSCORE);
    start := |l|;
    assert forall i :: 0 <= i < |whole| ==> whole[i] == mapped[start + i];
    assert forall i :: 0 <= i < start ==> mapped[i] == l[i];
    assert forall i :: start + |whole| <= i < |mapped| ==> mapped[i] == r[i - start - |whole|];
  }

  /** What is trimmed off a mapped domain, and what is left of it. */
  lemma WholeName(domain: string) returns (start: nat)
    ensures var whole := Trim(MapAll(domain), UNDERSCORE);
            start + |whole| <= |domain| && Trimmed(whole, UNDERSCORE)
            && (forall i :: 0 <= i < |whole| ==> whole[i] == Mapped(domain[start + i]))
            && (whole == "" <==> forall i :: 0 <= i < |domain| ==> !Alphanumeric(LowerByte(domain[i])))
  {
    hide Trim;
    hide Mapped;
    hide Alphanumeric;
    hide LowerByte;
    var mapped := MapAll(domain);
    start := TrimmedMiddle(mapped);
    var whole := Trim(mapped, UNDERSCORE);
    forall i | 0 <= i < |domain| ensures Mapped(domain[i]) == '_' <==> !Alphanumeric(LowerByte(domain[i])) {
      MappedToUnderscore(domain[i]);
    }
    assert forall i :: 0 <= i < |domain| ==> mapped[i] == Mapped(domain[i]);
    assert whole != "" ==> mapped[start] != '_';
  }

  /** Truncating keeps the beginning of the name. */
  lemma DerivedIsPrefix(whole: string)
    requires Trimmed(whole, UNDERSCORE)
    ensures var name := if |whole| > MAX_NAME then Trim(whole[..MAX_NAME], UNDERSCORE) else whole;
            name <= whole && |name| <= MAX_NAME && (name == "" <==> whole == "") && Trimmed(name, UNDERSCORE)
            && (name in SYSTEM_DATABASES <==> Shadowing(whole))
  {
    if |whole| > MAX_NAME {
      TruncatedName(whole);
      var l, r := TrimParts(whole[..MAX_NAME], UNDERSCORE);
      assert whole !in SYSTEM_DATABASES;
    }
  }

  lemma MappedByte(c: char)
    ensures var m := Mapped(c);
            LowerByte(m) == m && NameByte(m) && m != '-'
  {
  }

  /** The name derived from a domain can be used exactly when the domain has a letter or a digit and
      does not shadow one of the server's own databases. */
  lemma DerivedNameUsable(domain: string)
    ensures UsableName(DerivedName(domain)) <==>
            (exists i :: 0 <= i < |domain| && Alphanumeric(LowerByte(domain[i])))
            && !Shadowing(Trim(MapAll(domain), UNDERSCORE))
    ensures |DerivedName(domain)| <= MAX_NAME && Trimmed(DerivedName(domain), UNDERSCORE)
  {
    hide Trim;
    hide Shadowing;
    hide Mapped;
    hide NameByte;
    hide Alphanumeric;
    hide LowerByte;
    var start := WholeName(domain);
    var whole := Trim(MapAll(domain), UNDERSCORE);
    DerivedIsPrefix(whole);
    var name := DerivedName(domain);
    forall i | 0 <= i < |name| ensures LowerByte(name[i]) == name[i] && NameByte(name[i]) && name[i] != '-' {
      MappedByte(domain[start + i]);
    }
    assert ToLower(name) == name;
  }

  /** A letter or a digit, which stays in the name. */
  predicate Stays(c: char) {
    'a' <= c <= 'z' || 'A' <= c <= 'Z' || '0' <= c <= '9'
  }

  /** What becomes of a byte: capital letters become small ones, and what does not stay an underscore. */
  predicate Becomes(c: char, m: char) {
    if 'A' <= c <= 'Z' then m as int == c as int + 32 else if Stays(c) then m == c else m == '_'
  }

  lemma MappedIs(c: char)
    ensures Becomes(c, Mapped(c)) && (Mapped(c) == '_' <==> !Stays(c))
  {
  }

  /** A part of the domain, mapped. */
  predicate IsPart(domain: string, start: nat, part: string) {
    start + |part| <= |domain| && forall i :: 0 <= i < |part| ==> Becomes(domain[start + i], part[i])
  }

  lemma WholeIs(domain: string) returns (start: nat)
    ensures var whole := Trim(MapAll(domain), UNDERSCORE);
            IsPart(domain, start, whole) && Trimmed(whole, UNDERSCORE)
            && (forall i :: 0 <= i < |whole| ==> (whole[i] == '_' <==> !Stays(domain[start + i])))
            && (forall i :: 0 <= i < start || start + |whole| <= i < |domain| ==> !Stays(domain[i]))
  {
    hide Mapped;
    hide Stays;
    hide Becomes;
    hide Trim;
    var mapped := MapAll(domain);
    start := TrimmedMiddle(mapped);
    forall i | 0 <= i < |domain|
      ensures Becomes(domain[i], mapped[i]) && (mapped[i] == '_' <==> !Stays(domain[i]))
    {
      MappedIs(domain[i]);
    }
  }

  lemma CutIs(whole: string)
    requires Trimmed(whole, UNDERSCORE)
    ensures var name := if |whole| > MAX_NAME then Trim(whole[..MAX_NAME], UNDERSCORE) else whole;
            name <= whole && |name| <= 38 && Trimmed(name, UNDERSCORE)
            && forall i :: |name| <= i < |whole| && i < 38 ==> whole[i] == '_'
  {
    hide TrimLeft;
    hide TrimRight;
    if |whole| > MAX_NAME {
      var cut := whole[..MAX_NAME];
      var l, r := TrimParts(cut, UNDERSCORE);
      var name := Trim(cut, UNDERSCORE);
      assert whole[0] == cut[0] != '_';
      assert l == "";
      assert cut == name + r;
      forall i | |name| <= i < MAX_NAME ensures whole[i] == '_' {
        assert whole[i] == cut[i] == r[i - |name|];
      }
    }
  }

  /** What the derived name is: the domain from its first letter or digit on, at most 38 bytes of it and
      up to its last letter or digit within those, mapped byte by byte. */
  lemma DerivedNameIs(domain: string) returns (start: nat)
    ensures var name := DerivedName(domain);
            |name| <= 38 && IsPart(domain, start, name)
            && (forall i :: 0 <= i < start ==> !Stays(domain[i]))
            && (name != "" ==> Stays(domain[start]) && Stays(domain[start + |name| - 1]))
            && forall i :: start + |name| <= i < |domain| && i < start + 38 ==> !Stays(domain[i])
  {
    hide *;
    start := WholeIs(domain);
    var whole, name := Trim(MapAll(domain), UNDERSCORE), DerivedName(domain);
    DerivedIsCut(domain);
    PartOfPart(domain, start, whole, name);
    EndsOf(domain, start, whole, name);
  }

  lemma DerivedIsCut(domain: string)
    ensures var whole, name := Trim(MapAll(domain), UNDERSCORE), DerivedName(domain);
            name <= whole && |name| <= 38 && Trimmed(name, UNDERSCORE)
            && forall i :: |name| <= i < |whole| && i < 38 ==> whole[i] == '_'
  {
    hide MapAll;
    hide Trim;
    var l, r := TrimParts(MapAll(domain), UNDERSCORE);
    CutIs(Trim(MapAll(domain), UNDERSCORE));
  }

  lemma EndsOf(domain: string, start: nat, whole: string, name: string)
    requires start + |whole| <= |domain| && name <= whole && Trimmed(name, UNDERSCORE)
    requires forall i :: 0 <= i < |whole| ==> (whole[i] == '_' <==> !Stays(domain[start + i]))
    requires forall i :: 0 <= i < start || start + |whole| <= i < |domain| ==> !Stays(domain[i])
    requires forall i :: |name| <= i < |whole| && i < 38 ==> whole[i] == '_'
    ensures name != "" ==> Stays(domain[start]) && Stays(domain[start + |name| - 1])
    ensures forall i :: start + |name| <= i < |domain| && i < start + 38 ==> !Stays(domain[i])
  {
    hide Stays;
    forall i | start + |name| <= i < |domain| && i < start + 38 ensures !Stays(domain[i]) {
      if i < start + |whole| {
        assert whole[i - start] == '_';
      }
    }
    assert name != "" ==> name[0] == whole[0] && name[|name| - 1] == whole[|name| - 1];
  }

  lemma PartOfPart(domain: string, start: nat, whole: string, name: string)
    requires IsPart(domain, start, whole) && name <= whole
    ensures IsPart(domain, start, name) && start + |name| <= start + |whole| <= |domain|
  {
  }

  /** A label of the word "admin" and enough hyphens derives the server's own database: the name
      that plan then refuses. */
  lemma HyphensShadowAdmin(hyphens: string, rest: string)
    requires |hyphens| >= 33 && forall i :: 0 <= i < |hyphens| ==> hyphens[i] == '-'
    requires rest != "" && 'a' <= rest[|rest| - 1] <= 'z'
    ensures DerivedName("admin" + hyphens + rest) == "admin"
  {
    var domain := "admin" + hyphens + rest;
    var mapped := MapAll(domain);
    assert forall i :: 0 <= i < 5 ==> domain[i] == "admin"[i] && Mapped("admin"[i]) == "admin"[i];
    assert mapped[..5] == "admin";
    forall i | 5 <= i < MAX_NAME ensures mapped[i] == '_' {
      assert domain[i] == hyphens[i - 5];
    }
    assert mapped[|mapped| - 1] == rest[|rest| - 1];
    TrimmedFixed(mapped, UNDERSCORE);
    TrimPad("", "admin", mapped[5..MAX_NAME], UNDERSCORE);
    assert mapped[..MAX_NAME] == "" + "admin" + mapped[5..MAX_NAME];
  }
}
