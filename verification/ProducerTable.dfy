/**
 * Which operand of a call names an output, form by form, and that its sources
 * are recorded.
 */
module ProducerTable {
  import opened Wrappers
  import opened Provenance
  import opened ProducerSyntax
  import Spec = ProducerAnalysis

  // ---- The forms -------------------------------------------------------------------------

  /** The mode of an opening call: its first keyword of that name, or else the argument at `index`. */
  ghost predicate ModeIs(call: Expr, index: nat, mode: Expr)
    requires call.Call?
  {
    || (exists i :: 0 <= i < |call.keywords| && call.keywords[i] == Keyword(Some("mode"), mode)
                    && forall j :: 0 <= j < i ==> call.keywords[j].name != Some("mode"))
    || ((forall j :: 0 <= j < |call.keywords| ==> call.keywords[j].name != Some("mode"))
        && index < |call.arguments| && mode == call.arguments[index])
  }

  ghost predicate Flagged(text: string) {
    'w' in text || 'a' in text || 'x' in text || '+' in text
  }

  /** The mode is written out and lets the file be written. */
  ghost predicate OpensToWrite(call: Expr, index: nat)
    requires call.Call?
  {
    exists text: string :: ModeIs(call, index, Text(text)) && Flagged(text)
  }

  /** `on.method(...)` writes what `on` names. */
  ghost predicate WritesReceiver(call: Expr)
    requires call.Call?
  {
    && call.callee.Attribute?
    && var verb := call.callee.attr;
       || verb == "write_text" || verb == "write_bytes" || verb == "touch"
       || verb == "write" || verb == "writelines" || verb == "writerow" || verb == "writerows"
       || (verb == "open" && OpensToWrite(call, 0))
  }

  /** In capitals: some letter is, and none is small. */
  ghost predicate Capitals(s: string) {
    (exists c :: c in s && 'A' <= c <= 'Z') && forall c :: c in s ==> !('a' <= c <= 'z')
  }

  /** The call writes what its first argument names. */
  ghost predicate WritesFirst(call: Expr)
    requires call.Call?
  {
    && |call.arguments| >= 1
    && (|| (call.callee == Name("open") && OpensToWrite(call, 1))
        || (call.callee.Attribute? &&
            var verb, on := call.callee.attr, call.callee.value;
            || (verb == "replace" && !(on == Name("os") && |call.arguments| >= 2))
            || verb == "save" || verb == "savez" || verb == "savez_compressed" || verb == "savetxt"
            || (|verb| >= 6 && verb[..6] == "write_" && verb != "write_text" && verb != "write_bytes"
                && on.Name? && Capitals(on.id))))
  }

  /** The call writes what its second argument names. */
  ghost predicate WritesSecond(call: Expr)
    requires call.Call?
  {
    && |call.arguments| >= 2 && call.callee.Attribute?
    && var verb, on := call.callee.attr, call.callee.value;
       || ((verb == "replace" || verb == "rename") && on == Name("os"))
       || verb == "copy" || verb == "copy2" || verb == "copyfile" || verb == "move"
       || verb == "dump"
  }

  // ---- The table is the one the analysis uses ------------------------------------------------

  lemma {:induction false} KeywordFound(keywords: seq<Keyword>, name: string)
    ensures match FindKeyword(keywords, name)
            case None => forall j :: 0 <= j < |keywords| ==> keywords[j].name != Some(name)
            case Some(value) =>
              exists i :: 0 <= i < |keywords| && keywords[i] == Keyword(Some(name), value)
                          && forall j :: 0 <= j < i ==> keywords[j].name != Some(name)
  {
    if keywords != [] && keywords[0].name != Some(name) {
      KeywordFound(keywords[1..], name);
      if FindKeyword(keywords[1..], name).Some? {
        var value := FindKeyword(keywords[1..], name).value;
        var i :| 0 <= i < |keywords[1..]| && keywords[1..][i] == Keyword(Some(name), value)
                 && forall j :: 0 <= j < i ==> keywords[1..][j].name != Some(name);
        assert keywords[i + 1] == Keyword(Some(name), value);
        assert forall j :: 0 <= j < i + 1 ==> keywords[j].name != Some(name);
      } else {
        assert forall j :: 0 <= j < |keywords| ==> j == 0 || keywords[j] == keywords[1..][j - 1];
      }
    }
  }

  function ModeOf(call: Expr, index: nat): Option<Expr>
    requires call.Call?
  {
    var keyword := FindKeyword(call.keywords, "mode");
    if keyword.Some? then keyword else if |call.arguments| > index then Some(call.arguments[index]) else None
  }

  lemma ModeIsFound(call: Expr, index: nat, mode: Expr)
    requires call.Call?
    ensures ModeIs(call, index, mode) <==> ModeOf(call, index) == Some(mode)
  {
    KeywordFound(call.keywords, "mode");
  }

  lemma FlagsAre(text: string)
    ensures HasFlag(text) <==> Flagged(text)
  {
    if HasFlag(text) {
      var i :| 0 <= i < |text| && text[i] in "wax+";
      FlagIs(text[i]);
      assert text[i] in text;
    }
    if Flagged(text) {
      var c: char :| c in text && (c == 'w' || c == 'a' || c == 'x' || c == '+');
      FlagIs(c);
      var i :| 0 <= i < |text| && text[i] == c;
      assert text[i] in "wax+";
    }
  }

  lemma ModeDecides(call: Expr, isMethod: bool)
    requires call.Call?
    ensures WriteMode(call, isMethod) <==> OpensToWrite(call, if isMethod then 0 else 1)
  {
    var index := if isMethod then 0 else 1;
    hide ModeIs;
    forall text ensures ModeIs(call, index, Text(text)) <==> ModeOf(call, index) == Some(Text(text)) {
      ModeIsFound(call, index, Text(text));
    }
    var mode := ModeOf(call, index);
    if mode.Some? && mode.value.Text? {
      var text := mode.value.text;
      FlagsAre(text);
      hide HasFlag, Flagged;
      assert WriteMode(call, isMethod) <==> Flagged(text);
      assert ModeIs(call, index, Text(text));
    }
  }

  lemma FlagIs(c: char)
    ensures c in "wax+" <==> c == 'w' || c == 'a' || c == 'x' || c == '+'
  {
    var flags := "wax+";
    assert flags[0] == 'w' && flags[1] == 'a' && flags[2] == 'x' && flags[3] == '+';
  }

  lemma UpperIsCapitals(s: string)
    ensures IsUpper(s) <==> Capitals(s)
  {
    if IsUpper(s) {
      var i :| 0 <= i < |s| && 'A' <= s[i] <= 'Z';
      assert s[i] in s;
    }
    if Capitals(s) {
      var c :| c in s && 'A' <= c <= 'Z';
      var i :| 0 <= i < |s| && s[i] == c;
      assert forall j :: 0 <= j < |s| ==> s[j] in s;
    }
  }

  lemma PrefixIs(s: string)
    ensures StartsWith(s, "write_") <==> |s| >= 6 && s[..6] == "write_"
  {
  }

  /** No other form of call begins like that. */
  lemma PrefixIsNoOther(s: string)
    requires |s| >= 6 && s[..6] == "write_"
    ensures s !in ["touch", "write", "writelines", "writerow", "writerows", "open", "replace", "rename"]
    ensures s !in ["copy", "copy2", "copyfile", "move", "save", "savez", "savez_compressed", "savetxt", "dump"]
  {
    assert s[0] == s[..6][0] == 'w' && s[5] == s[..6][5] == '_';
    assert "writelines"[5] == 'l' && "writerow"[5] == 'r' && "writerows"[5] == 'r';
  }

  lemma AttributeIsTable(call: Expr)
    requires call.Call? && call.callee.Attribute?
    ensures WrittenBy(call) == Receiver <==> WritesReceiver(call)
    ensures WrittenBy(call) == PositionalArgument(0) <==> WritesFirst(call)
    ensures WrittenBy(call) == PositionalArgument(1) <==> WritesSecond(call)
  {
    ModeDecides(call, true);
    PrefixIs(call.callee.attr);
    if call.callee.value.Name? {
      UpperIsCapitals(call.callee.value.id);
    }
    hide WriteMode, OpensToWrite, StartsWith, IsUpper, Capitals;
    var verb := call.callee.attr;
    if |verb| >= 6 && verb[..6] == "write_" {
      PrefixIsNoOther(verb);
    }
  }

  lemma NameIsTable(call: Expr)
    requires call.Call? && !call.callee.Attribute?
    ensures !WritesReceiver(call) && !WritesSecond(call)
    ensures WrittenBy(call) == (if WritesFirst(call) then PositionalArgument(0) else Nowhere)
  {
    ModeDecides(call, false);
    hide WriteMode, OpensToWrite;
  }

  /** The operand that is recorded, for every form of call. */
  lemma WrittenByIsTable(call: Expr)
    requires call.Call?
    ensures WrittenBy(call) == Receiver <==> WritesReceiver(call)
    ensures WrittenBy(call) == PositionalArgument(0) <==> WritesFirst(call)
    ensures WrittenBy(call) == PositionalArgument(1) <==> WritesSecond(call)
    ensures WrittenBy(call).PositionalArgument? ==> WrittenBy(call).index < 2
  {
    hide WritesReceiver, WritesFirst, WritesSecond, WriteMode, StartsWith, IsUpper;
    if call.callee.Attribute? {
      AttributeIsTable(call);
    } else {
      NameIsTable(call);
    }
  }

  // ---- What a call that is not followed records ------------------------------------------------

  /** The written operand's sources are in what is recorded. */
  lemma OperandIsRecorded(p: Program, call: Expr, s: Spec.State, follow: bool, active: set<string>)
    requires call.Call? && !(follow && call.callee.Name? && call.callee.id in p.functions)
    ensures var on := if call.callee.Attribute? then Spec.Expression(p, call.callee.value, s, follow, active)
                      else Spec.Outcome(NOTHING, s, NOTHING);
            var args := Spec.List(p, call.arguments, on.state, follow, active);
            var recorded := Spec.Expression(p, call, s, follow, active).recorded;
            && (WritesReceiver(call) ==> Includes(recorded, on.value))
            && (WritesFirst(call) ==> Includes(recorded, args.value[0]))
            && (WritesSecond(call) ==> Includes(recorded, args.value[1]))
            && Includes(recorded, on.recorded) && Includes(recorded, args.recorded)
  {
    WrittenByIsTable(call);
    assert WritesFirst(call) ==> |call.arguments| >= 1;
    assert WritesSecond(call) ==> |call.arguments| >= 2;
    hide Merge, Includes, WrittenBy, WritesReceiver, WritesFirst, WritesSecond, Spec.List, Spec.Keywords, MergeAll;
    var on := if call.callee.Attribute? then Spec.Expression(p, call.callee.value, s, follow, active)
              else Spec.Outcome(NOTHING, s, NOTHING);
    var args := Spec.List(p, call.arguments, on.state, follow, active);
    var named := Spec.Keywords(p, call.keywords, args.state, follow, active);
    var written := Spec.WrittenSources(WrittenBy(call), on.value, args.value);
    var both := Merge(on.recorded, args.recorded);
    var all := Merge(both, named.recorded);
    IncludesParts(on.recorded, args.recorded, named.recorded, written);
    assert Spec.Expression(p, call, s, follow, active).recorded == Merge(all, written);
  }

  lemma IncludesParts(a: Sources, b: Sources, c: Sources, d: Sources)
    ensures var m := Merge(Merge(Merge(a, b), c), d);
            Includes(m, a) && Includes(m, b) && Includes(m, c) && Includes(m, d)
  {
    hide Merge, Includes;
    var x, y := Merge(a, b), Merge(Merge(a, b), c);
    var m := Merge(y, d);
    assert Includes(m, m) by {
      MergeIsIdempotent(m);
      EqualIsIncluded(m);
    }
    MergeIsLeast(y, d, m);
    MergeIsLeast(x, c, m);
    MergeIsLeast(a, b, m);
  }

  lemma EqualIsIncluded(m: Sources)
    requires Merge(m, m) == m
    ensures Includes(m, m)
  {
  }

  // ---- Where a declared argument is stored -------------------------------------------------------

  /** The name from which the attribute is made: the first long option, or else the first name. */
  ghost predicate NamedAfter(names: seq<string>, name: string) {
    || (exists i :: 0 <= i < |names| && names[i] == name && "--" <= name && forall j :: 0 <= j < i ==> !("--" <= names[j]))
    || ((forall j :: 0 <= j < |names| ==> !("--" <= names[j])) && name == if names == [] then "" else names[0])
  }

  /** `attr` is `name` without its leading dashes, and with the others turned into underscores. */
  ghost predicate Dashless(name: string, attr: string) {
    exists k :: 0 <= k <= |name| && DashesUpTo(name, k) && |attr| == |name| - k
      && forall i :: 0 <= i < |attr| ==> attr[i] == if name[k + i] == '-' then '_' else name[k + i]
  }

  ghost predicate DashesUpTo(name: string, k: nat) {
    k <= |name| && (forall i :: 0 <= i < k ==> name[i] == '-') && (k < |name| ==> name[k] != '-')
  }

  lemma {:induction false} StripIs(s: string) returns (k: nat)
    ensures DashesUpTo(s, k) && Strip(s) == s[k..]
  {
    if s != [] && s[0] == '-' {
      var j := StripIs(s[1..]);
      k := j + 1;
    } else {
      k := 0;
    }
  }

  lemma {:induction false} FirstOptionIs(names: seq<string>)
    ensures match FirstOption(names)
            case None => forall j :: 0 <= j < |names| ==> !("--" <= names[j])
            case Some(name) => exists i :: 0 <= i < |names| && names[i] == name && "--" <= name && forall j :: 0 <= j < i ==> !("--" <= names[j])
  {
    if names != [] && !StartsWith(names[0], "--") {
      FirstOptionIs(names[1..]);
      if FirstOption(names).Some? {
        var i :| 0 <= i < |names[1..]| && names[1..][i] == FirstOption(names).value && forall j :: 0 <= j < i ==> !("--" <= names[1..][j]);
        assert names[i + 1] == names[1..][i];
        forall j | 0 <= j < i + 1 ensures !("--" <= names[j]) {
          assert j > 0 ==> names[j] == names[1..][j - 1];
        }
      } else {
        assert forall j :: 0 < j < |names| ==> names[j] == names[1..][j - 1];
      }
    }
  }

  /** The attribute of the namespace that an argument is stored under. */
  lemma DestinationIs(a: Argument)
    ensures match a.dest
            case Some(dest) => Destination(a) == dest
            case None => exists name :: NamedAfter(a.names, name) && Dashless(name, Destination(a))
  {
    if a.dest.None? {
      FirstOptionIs(a.names);
      var option := FirstOption(a.names);
      var name := if option.Some? then option.value else if a.names != [] then a.names[0] else "";
      var k := StripIs(name);
      assert NamedAfter(a.names, name) && Dashless(name, Destination(a));
    }
  }
}
