/** The rule engine of modules/rule_engine.py: conjunctive rule matching,
    dispatch of the move / encrypt / notify actions on their string tag, and
    the in-order application of every matching rule to one file. */
module Rules {
  import opened Base
  import opened Names
  import opened Fs
  import Vault

  /** `rule['conditions']`: each key may be absent. */
  datatype Conditions = Conditions(
    namePattern: Option<string>,
    extensions: Option<seq<string>>,
    minSize: Option<int>,
    maxSize: Option<int>)

  /** `rule['action']`: the `type` tag and the parameters some tags read. */
  datatype Action = Action(
    kind: Option<string>,
    destination: Option<string>,
    password: Option<string>,
    message: Option<string>)

  datatype Rule = Rule(conditions: Option<Conditions>, action: Option<Action>)

  const NoConditions := Conditions(None, None, None, None)

  /** The collaborators a rule pass reaches: `re.search` as an opaque
      predicate on (pattern, name), the cipher, the key that
      `Fernet.generate_key` hands the vault, and `str.format` from the first
      replacement field with a conversion, a format spec, an attribute or an
      index on: (that remainder of the message, file name) to the text or
      the exception. */
  datatype Env = Env(
    matches: (string, string) -> bool,
    seal: (Vault.Key, string) -> string,
    key: Vault.Key,
    elaborate: (string, string) -> Result<string>)

  /** `_load_rules`: a document that cannot be read or parsed gives no rules. */
  function LoadRules(document: Option<seq<Rule>>): (r: seq<Rule>)
    ensures document.None? ==> r == []
    ensures document.Some? ==> r == document.value
  {
    if document.Some? then document.value else []
  }

  function ConditionsOf(rule: Rule): Conditions
  {
    if rule.conditions.Some? then rule.conditions.value else NoConditions
  }

  /** The declarative reading of a rule's conditions: every present condition
      holds, the size bounds inclusive. */
  predicate Satisfies(c: Conditions, name: string, size: int, matches: (string, string) -> bool)
  {
    && (c.namePattern.Some? ==> matches(c.namePattern.value, name))
    && (c.extensions.Some? ==> Lower(Suffix(name)) in c.extensions.value)
    && (c.minSize.Some? ==> size >= c.minSize.value)
    && (c.maxSize.Some? ==> size <= c.maxSize.value)
  }

  predicate NeedsSize(c: Conditions)
  {
    c.minSize.Some? || c.maxSize.Some?
  }

  /** `_matches_rule`: name pattern, extensions, minimum size, maximum size,
      tested in that order; the first failing one answers False. `size` is `file.stat().st_size`, None
      when the file is gone, in which case reaching a size test raises. */
  function MatchesRule(name: string, size: Option<nat>, rule: Rule,
                       matches: (string, string) -> bool): (r: Result<bool>)
    ensures size.Some? ==> r == Ok(Satisfies(ConditionsOf(rule), name, size.value, matches))
    ensures r.Err? ==> size.None? && NeedsSize(ConditionsOf(rule)) && r.failure == NotFound(name)
    ensures !NeedsSize(ConditionsOf(rule)) ==> r == Ok(Satisfies(ConditionsOf(rule), name, 0, matches))
  {
    var c := ConditionsOf(rule);
    if c.namePattern.Some? && !matches(c.namePattern.value, name) then Ok(false)
    else if c.extensions.Some? && Lower(Suffix(name)) !in c.extensions.value then Ok(false)
    else if c.minSize.Some? && size.None? then Err(NotFound(name))
    else if c.minSize.Some? && size.value < c.minSize.value then Ok(false)
    else if c.maxSize.Some? && size.None? then Err(NotFound(name))
    else if c.maxSize.Some? && size.value > c.maxSize.value then Ok(false)
    else Ok(true)
  }

  /** The encrypt action's password: `action.get('password') or 'default'`,
      so a missing or empty password becomes "default". */
  function EffectivePassword(password: Option<string>): (r: string)
    ensures r != ""
    ensures password.Some? && password.value != "" ==> r == password.value
    ensures password.None? || password.value == "" ==> r == "default"
  {
    if password.Some? && password.value != "" then password.value else "default"
  }

  // ---------------------------------------------------------------------------
  // `message.format(file=name)`

  /** `p` followed by a formatted text; an exception passes through. */
  function Prefixed(p: string, r: Result<string>): Result<string>
  {
    if r.Ok? then Ok(p + r.value) else r
  }

  lemma PrefixedAssoc(p: string, q: string, r: Result<string>)
    ensures Prefixed(p, Prefixed(q, r)) == Prefixed(p + q, r)
  {
    if r.Ok? {
      AppendAssoc(p, q, r.value);
    }
  }

  /** A field text using a conversion (`!`), a format spec (`:`), an
      attribute (`.`) or an index (`[`). */
  predicate Elaborate(f: string)
  {
    exists k :: 0 <= k < |f| && (f[k] == '!' || f[k] == ':' || f[k] == '.' || f[k] == '[')
  }

  /** A field name `str.format` reads as a position: empty (automatic
      numbering) or decimal digits. */
  predicate Positional(f: string)
  {
    forall k :: 0 <= k < |f| ==> '0' <= f[k] <= '9'
  }

  /** `message.format(file=name)`, read left to right: "{{" and "}}" stand
      for one brace, "{file}" for the name; a lone "}" or an unclosed "{" is
      a ValueError, a positional field an IndexError (no positional
      arguments are given), and any other field name a KeyError. From the
      first field with a conversion, format spec, attribute or index on,
      the text is left to `elaborate`. */
  function Format(message: string, name: string, elaborate: (string, string) -> Result<string>): Result<string>
    decreases |message|
  {
    if message == [] then Ok([])
    else if message[0] == '{' then
      if |message| >= 2 && message[1] == '{' then Prefixed("{", Format(message[2..], name, elaborate))
      else
        var body := message[1..];
        var close := FirstIndexOf(body, '}');
        if close < 0 then
          if body == [] then Err(ValueError("Single '{' encountered in format string"))
          else Err(ValueError("expected '}' before end of string"))
        else
          var field := body[..close];
          if Elaborate(field) then elaborate(message, name)
          else if FirstIndexOf(field, '{') >= 0 then Err(ValueError("unexpected '{' in field name"))
          else if field == "file" then Prefixed(name, Format(body[close + 1..], name, elaborate))
          else if Positional(field) then Err(IndexOutOfRange(field))
          else Err(MissingKey(field))
    else if message[0] == '}' then
      if |message| >= 2 && message[1] == '}' then Prefixed("}", Format(message[2..], name, elaborate))
      else Err(ValueError("Single '}' encountered in format string"))
    else Prefixed([message[0]], Format(message[1..], name, elaborate))
  }

  predicate NoBraces(s: string)
  {
    forall k :: 0 <= k < |s| ==> s[k] != '{' && s[k] != '}'
  }

  /** A message without braces is shown as written. */
  lemma {:induction false} FormatKeepsPlainText(message: string, name: string, elaborate: (string, string) -> Result<string>)
    requires NoBraces(message)
    ensures Format(message, name, elaborate) == Ok(message)
    decreases |message|
  {
    if message != [] {
      FormatKeepsPlainText(message[1..], name, elaborate);
      assert message == [message[0]] + message[1..];
    }
  }

  /** Text without braces before a part is copied ahead of that part's text,
      or of its exception. */
  lemma {:induction false} FormatPlainPrefix(before: string, rest: string, name: string,
                                             elaborate: (string, string) -> Result<string>)
    requires NoBraces(before)
    ensures Format(before + rest, name, elaborate) == Prefixed(before, Format(rest, name, elaborate))
    decreases |before|
  {
    if before != [] {
      var m := before + rest;
      assert m[0] == before[0] && m[0] != '{' && m[0] != '}' && m[1..] == before[1..] + rest;
      assert Format(m, name, elaborate) == Prefixed([m[0]], Format(m[1..], name, elaborate));
      assert NoBraces(before[1..]) by {
        forall k | 0 <= k < |before| - 1 ensures before[1..][k] != '{' && before[1..][k] != '}' {
          assert before[1..][k] == before[k + 1];
        }
      }
      FormatPlainPrefix(before[1..], rest, name, elaborate);
      PrefixedAssoc([before[0]], before[1..], Format(rest, name, elaborate));
      assert before == [before[0]] + before[1..];
    } else {
      assert before + rest == rest;
      var r := Format(rest, name, elaborate);
      assert r.Ok? ==> before + r.value == r.value;
    }
  }

  /** A "{file}" field after plain text is replaced by the file name. */
  lemma FormatReplacesField(before: string, after: string, name: string,
                            elaborate: (string, string) -> Result<string>)
    requires NoBraces(before)
    ensures Format(before + "{file}" + after, name, elaborate) ==
            Prefixed(before + name, Format(after, name, elaborate))
  {
    var m := "{file}" + after;
    var body := m[1..];
    assert body[0] == 'f' && body[1] == 'i' && body[2] == 'l' && body[3] == 'e' && body[4] == '}';
    assert FirstIndexOf(body, '}') == 4;
    assert body[..4] == "file" && body[5..] == after;
    assert !Elaborate("file");
    assert before + "{file}" + after == before + m;
    FormatPlainPrefix(before, m, name, elaborate);
    PrefixedAssoc(before, name, Format(after, name, elaborate));
  }

  /** A lone closing brace after plain text raises ValueError. */
  lemma FormatRejectsLoneClosingBrace(before: string, after: string, name: string,
                                      elaborate: (string, string) -> Result<string>)
    requires NoBraces(before) && (after == [] || after[0] != '}')
    ensures Format(before + "}" + after, name, elaborate) == Err(ValueError("Single '}' encountered in format string"))
  {
    assert before + "}" + after == before + ("}" + after);
    FormatPlainPrefix(before, "}" + after, name, elaborate);
  }

  /** A plain field naming anything but `file` raises: IndexError for a
      position, KeyError for a name. */
  lemma FormatRejectsOtherFields(before: string, field: string, after: string, name: string,
                                 elaborate: (string, string) -> Result<string>)
    requires NoBraces(before) && NoBraces(field) && !Elaborate(field) && field != "file"
    ensures Format(before + "{" + field + "}" + after, name, elaborate) ==
            if Positional(field) then Err(IndexOutOfRange(field)) else Err(MissingKey(field))
  {
    var m := "{" + field + "}" + after;
    assert m[1..] == field + "}" + after;
    assert m[1..][|field|] == '}' && m[1..][..|field|] == field;
    assert forall k :: 0 <= k < |field| ==> m[1..][k] == field[k];
    assert FirstIndexOf(m[1..], '}') == |field|;
    assert field == [] || m[1] != '{';
    assert before + "{" + field + "}" + after == before + m;
    FormatPlainPrefix(before, m, name, elaborate);
  }

  /** `s` with every brace doubled, so that `str.format` shows it as is. */
  function Escape(s: string): string
    decreases |s|
  {
    if s == [] then []
    else (if s[0] == '{' || s[0] == '}' then [s[0], s[0]] else [s[0]]) + Escape(s[1..])
  }

  /** Doubled braces are the escapes of single ones: formatting an escaped
      text gives the text back, whatever it holds. */
  lemma {:induction false} FormatUndoesEscape(s: string, name: string, elaborate: (string, string) -> Result<string>)
    ensures Format(Escape(s), name, elaborate) == Ok(s)
    decreases |s|
  {
    if s != [] {
      FormatUndoesEscape(s[1..], name, elaborate);
      var m := Escape(s);
      if s[0] == '{' || s[0] == '}' {
        assert m[0] == s[0] && m[1] == s[0] && m[2..] == Escape(s[1..]);
      } else {
        assert m[0] == s[0] && m[1..] == Escape(s[1..]);
      }
      assert s == [s[0]] + s[1..];
    }
  }

  /** "{{file}}" is the escape of "{file}", not a field. */
  lemma EscapedFieldIsLiteral(name: string, elaborate: (string, string) -> Result<string>)
    ensures Format("{{file}}", name, elaborate) == Ok("{file}")
  {
    assert Escape("{file}") == "{{file}}";
    FormatUndoesEscape("{file}", name, elaborate);
  }

  /** What an action or a rule pass did: the new entries, the events it
      emitted, and the exception that ended it, if any. */
  datatype Effect = Effect(tree: Tree, out: seq<Event>, err: Option<Failure>)

  /** A destination that names the file's own directory: `parent / ""` and
      `parent / "."` are `parent` itself. */
  predicate OwnDirectory(destination: string)
  {
    destination == "" || destination == "."
  }

  /** `RuleEngine._move_file`: `mkdir(exist_ok=True)` of `parent/destination`,
      then `rename` of the file into it. Into its own directory the rename
      is onto the file itself: nothing changes, and only a missing file
      raises. */
  function RuleMove(t: Tree, denied: set<RelPath>, name: string, destination: string): (s: Step)
    ensures s.err.Some? ==> s.tree == t || s.tree == t[destination := Dir(map[])]
    ensures OwnDirectory(destination) ==> s.tree == t && (s.err.None? <==> name in t)
    ensures !OwnDirectory(destination) && s.err.None? ==>
      name in t && IsDirAt(s.tree, destination) && name !in s.tree
    ensures !OwnDirectory(destination) && s.err.None? ==>
      name in s.tree[destination].children && s.tree[destination].children[name] == t[name]
  {
    if OwnDirectory(destination) then
      if name in t then Step(t, None) else Step(t, Some(NotFound(name)))
    else
      var d := MkdirExistOk(t, denied, destination);
      if d.err.Some? then d else MoveInto(d.tree, denied, name, destination, false)
  }

  /** `_send_notification`: the notice showing the message formatted with
      the file name under the title "File Action", or the exception the
      formatting raised before anything was shown. */
  function Notify(message: string, name: string, env: Env): Result<Event>
  {
    match Format(message, name, env.elaborate)
    case Ok(text) => Ok(Notified("File Action", text))
    case Err(f) => Err(f)
  }

  /** `_execute_action`: dispatch on the `type` tag; an unknown tag is a
      silent no-op. */
  function ExecuteAction(t: Tree, denied: set<RelPath>, name: string, action: Action, env: Env): (e: Effect)
    ensures action.kind.None? ==> e == Effect(t, [], Some(MissingKey("type")))
    ensures action.kind.Some? && action.kind.value !in {"move", "encrypt", "notify"} ==>
      e == Effect(t, [], None)
    ensures action.kind == Some("move") ==>
      if action.destination.None? then e == Effect(t, [], Some(MissingKey("destination")))
      else var s := RuleMove(t, denied, name, action.destination.value); e == Effect(s.tree, [], s.err)
    ensures action.kind == Some("encrypt") ==>
      var s := Vault.EncryptSpec(t, denied, name, env.key, env.seal); e == Effect(s.tree, [], s.err)
    ensures action.kind == Some("notify") ==>
      e.tree == t &&
      if action.message.None? then e == Effect(t, [], Some(MissingKey("message")))
      else match Format(action.message.value, name, env.elaborate)
        case Ok(text) => e.out == [Notified("File Action", text)] && e.err.None?
        case Err(f) => e.out == [] && e.err == Some(f)
    ensures action.kind != Some("notify") ==> e.out == []
  {
    match action.kind
    case None => Effect(t, [], Some(MissingKey("type")))
    case Some(tag) =>
      if tag == "move" then
        if action.destination.None? then Effect(t, [], Some(MissingKey("destination")))
        else
          var s := RuleMove(t, denied, name, action.destination.value);
          Effect(s.tree, [], s.err)
      else if tag == "encrypt" then
        // `_encrypt_file` builds a fresh FileVault, so the key it records is dropped.
        var _ := EffectivePassword(action.password);
        var s := Vault.EncryptSpec(t, denied, name, env.key, env.seal);
        Effect(s.tree, [], s.err)
      else if tag == "notify" then
        if action.message.None? then Effect(t, [], Some(MissingKey("message")))
        else
          match Notify(action.message.value, name, env)
          case Ok(notice) => Effect(t, [notice], None)
          case Err(f) => Effect(t, [], Some(f))
      else Effect(t, [], None)
  }

  /** One turn of the loop of `apply_rules`: test the rule, and run its
      action when it matches. */
  function RunRule(t: Tree, denied: set<RelPath>, name: string, rule: Rule, env: Env): Effect
  {
    match MatchesRule(name, Size(t, name), rule, env.matches)
    case Err(f) => Effect(t, [], Some(f))
    case Ok(hit) =>
      if !hit then Effect(t, [], None)
      else if rule.action.None? then Effect(t, [], Some(MissingKey("action")))
      else ExecuteAction(t, denied, name, rule.action.value, env)
  }

  /** `apply_rules` on `rules`: every rule in order; a matching rule's action
      runs; the first exception ends the pass, keeping what was done. */
  function ApplyRules(t: Tree, denied: set<RelPath>, name: string, rules: seq<Rule>, env: Env): (e: Effect)
    ensures e.err.None? ==> |e.out| <= |rules|
    decreases |rules|
  {
    if rules == [] then Effect(t, [], None)
    else
      var m := MatchesRule(name, Size(t, name), rules[0], env.matches);
      if m.Err? then Effect(t, [], Some(m.failure))
      else if !m.value then ApplyRules(t, denied, name, rules[1..], env)
      else if rules[0].action.None? then Effect(t, [], Some(MissingKey("action")))
      else
        var a := ExecuteAction(t, denied, name, rules[0].action.value, env);
        if a.err.Some? then a
        else
          var rest := ApplyRules(a.tree, denied, name, rules[1..], env);
          Effect(rest.tree, a.out + rest.out, rest.err)
  }

  /** `b` run after `a`: the second part counts only when the first raised
      nothing. */
  function Then(a: Effect, b: Effect): Effect
  {
    if a.err.Some? then a else Effect(b.tree, a.out + b.out, b.err)
  }

  /** The pass is the first rule's turn followed by the pass over the rest. */
  lemma ApplyRulesUnfold(t: Tree, denied: set<RelPath>, name: string, rules: seq<Rule>, env: Env)
    requires rules != []
    ensures var r := RunRule(t, denied, name, rules[0], env);
      ApplyRules(t, denied, name, rules, env) == Then(r, ApplyRules(r.tree, denied, name, rules[1..], env))
  {
    var r := RunRule(t, denied, name, rules[0], env);
    var rest := ApplyRules(r.tree, denied, name, rules[1..], env);
    assert [] + rest.out == rest.out;
  }

  /** No short-circuit: a pass over `r1 + r2` is the pass over `r1`
      followed, unless it raised, by the pass over `r2`. */
  lemma {:induction false} ApplyRulesSplit(t: Tree, denied: set<RelPath>, name: string,
                                           r1: seq<Rule>, r2: seq<Rule>, env: Env)
    ensures var a := ApplyRules(t, denied, name, r1, env);
      ApplyRules(t, denied, name, r1 + r2, env) == Then(a, ApplyRules(a.tree, denied, name, r2, env))
    decreases |r1|
  {
    if r1 == [] {
      assert r1 + r2 == r2;
    } else {
      var r := RunRule(t, denied, name, r1[0], env);
      assert (r1 + r2)[0] == r1[0] && (r1 + r2)[1..] == r1[1..] + r2;
      ApplyRulesUnfold(t, denied, name, r1 + r2, env);
      ApplyRulesUnfold(t, denied, name, r1, env);
      if r.err.None? {
        ApplyRulesSplit(r.tree, denied, name, r1[1..], r2, env);
        var a := ApplyRules(r.tree, denied, name, r1[1..], env);
        var b := ApplyRules(a.tree, denied, name, r2, env);
        AppendAssoc(r.out, a.out, b.out);
      }
    }
  }

  /** The loop `for rule in all_rules: if matches: execute`, read from the
      first rule to the last: the turn of the last rule follows the turns of
      all before it. */
  function RunInOrder(t: Tree, denied: set<RelPath>, name: string, rules: seq<Rule>, env: Env): Effect
    decreases |rules|
  {
    if rules == [] then Effect(t, [], None)
    else
      var a := RunInOrder(t, denied, name, rules[..|rules| - 1], env);
      Then(a, RunRule(a.tree, denied, name, rules[|rules| - 1], env))
  }

  /** `ApplyRules` is that loop, for any mix of actions. */
  lemma {:induction false} ApplyRulesIsLoop(t: Tree, denied: set<RelPath>, name: string, rules: seq<Rule>, env: Env)
    ensures ApplyRules(t, denied, name, rules, env) == RunInOrder(t, denied, name, rules, env)
    decreases |rules|
  {
    if rules != [] {
      var init, last := rules[..|rules| - 1], rules[|rules| - 1];
      assert rules == init + [last];
      ApplyRulesIsLoop(t, denied, name, init, env);
      ApplyRulesSplit(t, denied, name, init, [last], env);
      var a := ApplyRules(t, denied, name, init, env);
      ApplyRulesUnfold(a.tree, denied, name, [last], env);
      var r := RunRule(a.tree, denied, name, last, env);
      assert [last][1..] == [];
      assert r.out + [] == r.out;
    }
  }

  /** The first step of `ApplyRules`, stated once for its loop. */
  lemma ApplyRulesFirst(t: Tree, denied: set<RelPath>, name: string, rules: seq<Rule>, env: Env)
    requires rules != []
    ensures var m := MatchesRule(name, Size(t, name), rules[0], env.matches);
      ApplyRules(t, denied, name, rules, env) ==
        if m.Err? then Effect(t, [], Some(m.failure))
        else if !m.value then ApplyRules(t, denied, name, rules[1..], env)
        else if rules[0].action.None? then Effect(t, [], Some(MissingKey("action")))
        else
          var a := ExecuteAction(t, denied, name, rules[0].action.value, env);
          if a.err.Some? then a
          else
            var rest := ApplyRules(a.tree, denied, name, rules[1..], env);
            Effect(rest.tree, a.out + rest.out, rest.err)
  {
  }

  class RuleEngine {
    /** The rules read from the rules document at construction. */
    const rules: seq<Rule>

    constructor (document: Option<seq<Rule>>)
      ensures rules == LoadRules(document)
    {
      rules := LoadRules(document);
    }

    /** `apply_rules(file, additional_rules)`: the loaded rules followed by
        the additional ones, evaluated against `directory/name`. */
    method Apply(dir: Directory, name: string, additional: seq<Rule>, env: Env, sink: Sink)
      returns (err: Option<Failure>)
      modifies dir, sink
      ensures var e := ApplyRules(old(dir.entries), dir.denied, name, rules + additional, env);
              dir.entries == e.tree && sink.events == old(sink.events) + e.out && err == e.err
    {
      var all := rules + additional;
      ghost var whole := ApplyRules(dir.entries, dir.denied, name, all, env);
      ghost var out: seq<Event> := [];
      var i := 0;
      while i < |all|
        invariant 0 <= i <= |all|
        invariant sink.events == old(sink.events) + out
        invariant var rest := ApplyRules(dir.entries, dir.denied, name, all[i..], env);
                  whole == Effect(rest.tree, out + rest.out, rest.err)
      {
        var rule := all[i];
        assert all[i..][0] == rule && all[i..][1..] == all[i + 1..];
        ApplyRulesFirst(dir.entries, dir.denied, name, all[i..], env);
        var m := MatchesRule(name, Size(dir.entries, name), rule, env.matches);
        if m.Err? {
          return Some(m.failure);
        }
        if m.value {
          if rule.action.None? {
            return Some(MissingKey("action"));
          }
          var a := ExecuteAction(dir.entries, dir.denied, name, rule.action.value, env);
          ghost var rest := ApplyRules(a.tree, dir.denied, name, all[i + 1..], env);
          AppendAssoc(out, a.out, rest.out);
          AppendAssoc(old(sink.events), out, a.out);
          dir.entries := a.tree;
          sink.events := sink.events + a.out;
          out := out + a.out;
          if a.err.Some? {
            assert whole == Effect(a.tree, out, a.err);
            return a.err;
          }
        }
        i := i + 1;
      }
      assert all[i..] == [];
      err := None;
    }
  }

  // ---------------------------------------------------------------------------
  // Properties

  /** A rule without conditions, or with every condition absent, matches
      every file — even one that no longer exists, since no stat is taken. */
  lemma EmptyRuleMatchesEverything(name: string, size: Option<nat>, action: Option<Action>,
                                   matches: (string, string) -> bool)
    ensures MatchesRule(name, size, Rule(None, action), matches) == Ok(true)
    ensures MatchesRule(name, size, Rule(Some(NoConditions), action), matches) == Ok(true)
  {
  }

  /** Both size bounds are inclusive. */
  lemma SizeBoundsInclusive(name: string, n: nat, action: Option<Action>,
                            matches: (string, string) -> bool)
    ensures MatchesRule(name, Some(n), Rule(Some(Conditions(None, None, Some(n), Some(n))), action), matches) == Ok(true)
    ensures MatchesRule(name, Some(n), Rule(Some(Conditions(None, None, Some(n + 1), None)), action), matches) == Ok(false)
    ensures n > 0 ==> MatchesRule(name, Some(n), Rule(Some(Conditions(None, None, None, Some(n - 1))), action), matches) == Ok(false)
  {
  }

  /** A notify rule whose message formats for `name`. */
  predicate IsNotify(rule: Rule, name: string, env: Env)
  {
    rule.action.Some? && rule.action.value.kind == Some("notify") && rule.action.value.message.Some? &&
    Notify(rule.action.value.message.value, name, env).Ok?
  }

  /** The notices a pass of notify-only rules shows, one per matching rule. */
  function NoticesOf(rules: seq<Rule>, name: string, size: nat, env: Env): seq<Event>
    requires forall i :: 0 <= i < |rules| ==> IsNotify(rules[i], name, env)
    decreases |rules|
  {
    if rules == [] then []
    else
      assert IsNotify(rules[0], name, env);
      (if Satisfies(ConditionsOf(rules[0]), name, size, env.matches)
       then [Notify(rules[0].action.value.message.value, name, env).value]
       else [])
      + NoticesOf(rules[1..], name, size, env)
  }

  /** With notify actions only, whose messages format, every matching rule's
      notice is shown, in rule order, and the file is left alone. */
  lemma {:induction false} EveryMatchingRuleRuns(t: Tree, denied: set<RelPath>, name: string,
                                                 rules: seq<Rule>, env: Env)
    requires IsFileAt(t, name)
    requires forall i :: 0 <= i < |rules| ==> IsNotify(rules[i], name, env)
    ensures ApplyRules(t, denied, name, rules, env) ==
            Effect(t, NoticesOf(rules, name, |t[name].data|, env), None)
    decreases |rules|
  {
    if rules != [] {
      EveryMatchingRuleRuns(t, denied, name, rules[1..], env);
    }
  }

  /** A rule whose action tag is unknown changes nothing and shows nothing. */
  lemma UnknownActionIsNoOp(t: Tree, denied: set<RelPath>, name: string, tag: string,
                            rest: Action, env: Env)
    requires tag !in {"move", "encrypt", "notify"}
    ensures ExecuteAction(t, denied, name, rest.(kind := Some(tag)), env) == Effect(t, [], None)
  {
  }

  /** A file that is no longer at the path the rule pass was given makes a
      matching encrypt action fail with FileNotFoundError, changing nothing. */
  lemma StaleFileEncryptFails(t: Tree, denied: set<RelPath>, name: string, action: Action, env: Env)
    requires name !in t && action.kind == Some("encrypt")
    ensures ExecuteAction(t, denied, name, action, env) == Effect(t, [], Some(NotFound(name)))
  {
  }

  /** A matching move action creates `parent/destination` when missing and
      renames the file into it. */
  lemma MoveActionRelocates(t: Tree, denied: set<RelPath>, name: string, destination: string, env: Env)
    requires IsFileAt(t, name) && destination !in t && name != destination && !OwnDirectory(destination)
    requires [destination] !in denied && [name] !in denied
    ensures ExecuteAction(t, denied, name, Action(Some("move"), Some(destination), None, None), env) ==
            Effect((t - {name})[destination := Dir(map[name := t[name]])], [], None)
  {
    assert IsDirAt(t[destination := Dir(map[])], destination);
  }

  /** A move action into "" or "." renames the file onto itself: it leaves
      the directory as it was, and raises only when the file is gone. */
  lemma MoveToOwnDirectoryIsNoOp(t: Tree, denied: set<RelPath>, name: string, destination: string,
                                 rest: Action, env: Env)
    requires OwnDirectory(destination)
    ensures var e := ExecuteAction(t, denied, name, rest.(kind := Some("move"), destination := Some(destination)), env);
      e.tree == t && e.out == [] && (e.err.None? <==> name in t) && (e.err.Some? ==> e.err == Some(NotFound(name)))
  {
  }
}
