/** The small print of the environment editor (internal/cli/cmd_site_env.go), spelled out: what a line binds,
    which pairs may be set, and the lines of the file it writes. */
module EnvLines {
  import opened Text
  import ExecEnv
  import opened EnvFile
  import opened EnvRoundTrip
  import opened ExecValues

  /** A line binds the name before its first '=' to everything after it, white space at the ends of the
      line and of the name aside. */
  lemma LineBinds(l: string, name: string, pad: string, value: string, r: string)
    requires AllIn(l, SPACE) && AllIn(pad, SPACE) && AllIn(r, SPACE)
    requires '=' !in name && Trimmed(name, SPACE) && (name == "" ==> pad == "") && (name != "" ==> name[0] != '#')
    requires value == "" || value[|value| - 1] !in SPACE
    ensures BindingOf(l + (name + pad + "=" + value) + r) == Some((name, value))
  {
    var t := name + pad + "=" + value;
    assert t[0] == if name == "" then '=' else name[0];
    assert t[|t| - 1] == if value == "" then '=' else value[|value| - 1];
    TrimPad(l, t, r, SPACE);
    CutUnique(name + pad, '=', value);
    TrimPad("", name, pad, SPACE);
    assert "" + name + pad == name + pad;
  }

  /** The other lines are the blank ones, those that start with '#' and those without '='. */
  lemma LineBindsNothing(line: string)
    ensures BindingOf(line) == None <==>
            var t := TrimSpace(line); t == "" || t[0] == '#' || forall i :: 0 <= i < |t| ==> t[i] != '='
  {
    CutParts(TrimSpace(line), '=');
  }

  /** Only a name of at most 128 bytes that the loader does not act on can be set, and only to a value of at
      most 32768 bytes that fits on a line. */
  lemma SettableAre(name: string, value: string)
    ensures MaySet(name, value) <==>
            IsName(name) && |name| <= 128 && |value| <= 32768
            && (forall i :: 0 <= i < |value| ==> value[i] != '\0' && value[i] != '\n' && value[i] != '\r')
            && name != "LD_PRELOAD" && name != "LD_LIBRARY_PATH" && name != "LD_AUDIT"
            && name != "DYLD_INSERT_LIBRARIES"
  {
    NamesAre(name);
    hide IsName;
    hide ExecEnv.ValidName;
  }

  /** Out is a selection from lines that keeps their order: the lines at the places listed, which are those
      that are not blank. */
  ghost predicate Selects(out: seq<string>, lines: seq<string>, at: seq<nat>) {
    |out| == |at|
    && (forall i :: 0 <= i < |at| ==> at[i] < |lines| && out[i] == lines[at[i]] && TrimSpace(out[i]) != "")
    && (forall i, j :: 0 <= i < j < |at| ==> at[i] < at[j])
    && (forall k :: 0 <= k < |lines| && TrimSpace(lines[k]) != "" ==> k in at)
  }

  lemma SelectsOneMore(out: seq<string>, lines: seq<string>, at: seq<nat>, line: string)
    requires Selects(out, lines, at)
    ensures TrimSpace(line) == "" ==> Selects(out, lines + [line], at)
    ensures TrimSpace(line) != "" ==> Selects(out + [line], lines + [line], at + [|lines|])
  {
    hide TrimSpace;
    var all := lines + [line];
    forall k | 0 <= k < |all| && TrimSpace(all[k]) != "" && k < |lines| ensures k in at {
      assert all[k] == lines[k];
    }
    assert forall k :: k in at ==> k in at + [|lines|];
    assert |lines| == (at + [|lines|])[|at|];
  }

  lemma {:induction false} NotBlankSelects(lines: seq<string>) returns (at: seq<nat>)
    ensures Selects(NotBlank(lines), lines, at)
  {
    hide Selects;
    hide TrimSpace;
    if lines == [] {
      at := [];
      SelectsNone();
    } else {
      var front, last := lines[..|lines| - 1], lines[|lines| - 1];
      at := NotBlankSelects(front);
      SelectsOneMore(NotBlank(front), front, at, last);
      assert lines == front + [last] && NotBlank(front) + [] == NotBlank(front);
      if TrimSpace(last) != "" {
        at := at + [|front|];
      }
    }
  }

  lemma SelectsNone()
    ensures Selects([], [], [])
  {
  }

  /** The file that is written: the preserved lines that are not blank, a blank line if any were preserved,
      and name=value for each name in its place; every line is ended. */
  lemma FileIs(e: Env) returns (kept: seq<string>, at: seq<nat>)
    requires Textual(e)
    ensures Selects(kept, e.lines, at)
    ensures Split(Render(e), '\n') ==
            kept + (if |e.lines| > 0 then [""] else [])
            + seq(|e.order|, i requires 0 <= i < |e.order| => e.order[i] + "=" + e.values[e.order[i]])
            + [""]
  {
    kept := NotBlank(e.lines);
    at := NotBlankSelects(e.lines);
    var lines := RenderedLines(e);
    forall k | 0 <= k < |lines| ensures '\n' !in lines[k] {
      if k < |kept| {
        assert lines[k] == kept[k] == e.lines[at[k]];
      } else if k >= |RenderedHead(e)| {
        assert lines[k] == BindingLines(e.values, e.order)[k - |RenderedHead(e)|];
      }
    }
    UnlinesSplit(lines);
  }
}
