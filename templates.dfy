/**
 * `replaceTemplates(code, templatesMap)`: the `@NAME@` placeholders of a piece
 * of code replaced by the grid's template bodies, each wrapped in a banner
 * comment. The JavaScript works with the global regular expression
 * `/@([^@]+)@/g` and with `String.prototype.replace` on a string pattern; both
 * are written out here as the ECMAScript standard defines them for these
 * arguments.
 */
module Templates {
  import opened Wrappers

  type Templates = map<string, string>

  /** The index of the first `@` of `s`. */
  function NextAt(s: string): (r: Option<nat>)
    ensures r.None? ==> forall k :: 0 <= k < |s| ==> s[k] != '@'
    ensures r.Some? ==> r.value < |s| && s[r.value] == '@' && forall k :: 0 <= k < r.value ==> s[k] != '@'
  {
    if s == [] then None
    else if s[0] == '@' then Some(0)
    else match NextAt(s[1..])
      case None => None
      case Some(j) => Some(j + 1)
  }

  /**
   * `s.match(/@([^@]+)@/g)`, with `null` as the empty sequence: scanning from
   * the left, an `@` followed by at least one non-`@` character and then an `@`
   * is a placeholder, and the scan resumes after its closing `@`.
   */
  function Placeholders(s: string): seq<string>
    decreases |s|
  {
    if s == [] then []
    else if s[0] != '@' then Placeholders(s[1..])
    else match NextAt(s[1..])
      case None => Placeholders(s[1..])
      case Some(j) => if j == 0 then Placeholders(s[1..]) else [s[..j + 2]] + Placeholders(s[j + 2..])
  }

  /** `@`, a non-empty run of non-`@` characters, `@`. */
  predicate IsToken(t: string) {
    |t| >= 3 && t[0] == '@' && t[|t| - 1] == '@' && forall k :: 0 < k < |t| - 1 ==> t[k] != '@'
  }

  /** There is a placeholder between positions `i` and `j` of `s`. */
  predicate TokenAt(s: string, i: int, j: int) {
    0 <= i && i + 1 < j < |s| && s[i] == '@' && s[j] == '@' && forall k :: i < k < j ==> s[k] != '@'
  }

  /** Every match of the regular expression is a placeholder token. */
  lemma {:induction false} PlaceholdersAreTokens(s: string)
    ensures forall i :: 0 <= i < |Placeholders(s)| ==> IsToken(Placeholders(s)[i])
    decreases |s|
  {
    if s != [] {
      PlaceholdersAreTokens(s[1..]);
      if s[0] == '@' {
        match NextAt(s[1..])
        case None =>
        case Some(j) =>
          if j != 0 {
            PlaceholdersAreTokens(s[j + 2..]);
            var t := s[..j + 2];
            assert forall k :: 0 < k < |t| - 1 ==> t[k] == s[1..][k - 1];
          }
      }
    }
  }

  /** The regular expression finds something exactly when `s` contains a placeholder. */
  lemma {:induction false} PlaceholdersFound(s: string)
    ensures Placeholders(s) != [] <==> exists i, j :: TokenAt(s, i, j)
    decreases |s|
  {
    if s != [] {
      var tail := s[1..];
      PlaceholdersFound(tail);
      if exists i, j :: TokenAt(tail, i, j) {
        var i, j :| TokenAt(tail, i, j);
        assert TokenAt(s, i + 1, j + 1);
      }
      if exists i, j :: TokenAt(s, i, j) {
        var i, j :| TokenAt(s, i, j);
        if i > 0 {
          assert TokenAt(tail, i - 1, j - 1);
        }
      }
      if s[0] == '@' {
        match NextAt(tail)
        case None =>
        case Some(j) =>
          if j != 0 {
            assert TokenAt(s, 0, j + 1);
          } else if exists i, j' :: TokenAt(s, i, j') {
            var i, j' :| TokenAt(s, i, j');
            assert i != 0 by {
              if i == 0 {
                assert s[1] == '@';
              }
            }
          }
      }
    }
  }

  /** `s.replace(/@/g, '')`. */
  function RemoveAt(s: string): (r: string)
    ensures forall k :: 0 <= k < |r| ==> r[k] != '@'
  {
    if s == [] then []
    else (if s[0] == '@' then [] else [s[0]]) + RemoveAt(s[1..])
  }

  /** A placeholder token without its `@` delimiters is the template name between them. */
  lemma TokenName(t: string)
    requires IsToken(t)
    ensures RemoveAt(t) == t[1..|t| - 1]
  {
    var name := t[1..|t| - 1];
    var rest := t[1..];
    assert t == ['@'] + rest;
    assert rest == name + ['@'];
    assert forall k :: 0 <= k < |name| ==> name[k] == t[k + 1];
    NoAtUnchanged(name);
    assert RemoveAt(['@']) == [];
    RemoveAtAppend(name, ['@']);
    RemoveAtAppend(['@'], rest);
  }

  lemma {:induction false} NoAtUnchanged(s: string)
    requires forall k :: 0 <= k < |s| ==> s[k] != '@'
    ensures RemoveAt(s) == s
    decreases |s|
  {
    if s != [] {
      NoAtUnchanged(s[1..]);
    }
  }

  lemma {:induction false} RemoveAtAppend(a: string, b: string)
    ensures RemoveAt(a + b) == RemoveAt(a) + RemoveAt(b)
    decreases |a|
  {
    if a != [] {
      assert (a + b)[1..] == a[1..] + b;
      RemoveAtAppend(a[1..], b);
    } else {
      assert a + b == b;
    }
  }

  /**
   * The replacement text `String.prototype.replace` inserts for a match
   * `matched` that has `before` in front of it and `after` behind it
   * (GetSubstitution with no capture groups): `$$` is `$`, `$&` the match,
   * `` $` `` the text before, `$'` the text after; any other `$` stands for itself.
   */
  function Expand(replacement: string, matched: string, before: string, after: string): string
    decreases |replacement|
  {
    if replacement == [] then []
    else if replacement[0] == '$' && |replacement| >= 2 && replacement[1] in "$&`'" then
      var rest := Expand(replacement[2..], matched, before, after);
      match replacement[1]
      case '$' => "$" + rest
      case '&' => matched + rest
      case '`' => before + rest
      case _ => after + rest
    else [replacement[0]] + Expand(replacement[1..], matched, before, after)
  }

  /** A replacement without `$` is inserted as it is. */
  lemma {:induction false} ExpandPlain(replacement: string, matched: string, before: string, after: string)
    requires '$' !in replacement
    ensures Expand(replacement, matched, before, after) == replacement
    decreases |replacement|
  {
    if replacement != [] {
      assert replacement[0] != '$';
      ExpandPlain(replacement[1..], matched, before, after);
      assert [replacement[0]] + replacement[1..] == replacement;
    }
  }

  /** Does `needle` occur in `hay` at position `p`? */
  predicate OccursAt(hay: string, needle: string, p: int) {
    0 <= p && p + |needle| <= |hay| && hay[p..p + |needle|] == needle
  }

  /** `hay.indexOf(needle)` from position `p` on, `None` for `-1`. */
  function IndexFrom(hay: string, needle: string, p: nat): (r: Option<nat>)
    ensures r.Some? ==> p <= r.value && OccursAt(hay, needle, r.value)
                        && forall q :: p <= q < r.value ==> !OccursAt(hay, needle, q)
    ensures r.None? ==> forall q :: p <= q ==> !OccursAt(hay, needle, q)
    decreases |hay| - p
  {
    if p + |needle| > |hay| then None
    else if hay[p..p + |needle|] == needle then Some(p)
    else IndexFrom(hay, needle, p + 1)
  }

  /** `s.replace(pattern, replacement)` for a string pattern: only the first occurrence is replaced. */
  function ReplaceFirst(s: string, pattern: string, replacement: string): string {
    match IndexFrom(s, pattern, 0)
    case None => s
    case Some(p) =>
      var after := s[p + |pattern|..];
      s[..p] + Expand(replacement, pattern, s[..p], after) + after
  }

  /** The banner comment in front of an inserted template. */
  function Header(name: string): string {
    "\n/* Template: " + name + " */\n"
  }

  /** The banner comment behind an inserted template. */
  const Footer: string := "\n/* End Template */\n"

  /** The text a template named `name` with body `body` is inserted as. */
  function Wrapped(name: string, body: string): string {
    Header(name) + body + Footer
  }

  /** The banners hold neither `@` nor `$`: those in the inserted text come from the name or the body. */
  lemma BannersLack(name: string, body: string, c: char)
    requires c == '@' || c == '$'
    ensures c !in Header(name) <==> c !in name
    ensures c !in Footer
    ensures c !in Wrapped(name, body) <==> c !in name && c !in body
  {
    var h := Header(name);
    assert h == "\n/* Template: " + name + " */\n";
    assert h[..14] == "\n/* Template: " && h[14..14 + |name|] == name && h[14 + |name|..] == " */\n";
    if c in name {
      var k :| 0 <= k < |name| && name[k] == c;
      assert h[14 + k] == c;
    }
  }

  /** `templatesMap[name]` is truthy: the template exists and its body is not empty. */
  predicate Usable(templates: Templates, name: string) {
    name in templates && templates[name] != ""
  }

  /** One iteration of the loop of `replaceTemplates`, for the placeholder `token`. */
  function Step(result: string, token: string, templates: Templates): string {
    var name := RemoveAt(token);
    if Usable(templates, name) then ReplaceFirst(result, token, Wrapped(name, templates[name])) else result
  }

  /** The loop of `replaceTemplates` over the placeholders `tokens`, from `result` on. */
  function StepAll(result: string, tokens: seq<string>, templates: Templates): string
    decreases |tokens|
  {
    if tokens == [] then result else StepAll(Step(result, tokens[0], templates), tokens[1..], templates)
  }

  /** `replaceTemplates(code, templatesMap)` as written; `None` stands for a missing map. */
  function ReplaceTemplatesAsWritten(code: string, templates: Option<Templates>): string {
    if code == "" || templates.None? then code else StepAll(code, Placeholders(code), templates.value)
  }

  /** `replaceTemplates(code, templatesMap)`. */
  method ReplaceTemplates(code: string, templates: Option<Templates>) returns (result: string)
    ensures result == ReplaceTemplatesAsWritten(code, templates)
  {
    if code == "" || templates.None? {
      return code;
    }
    result := code;
    var placeholders := Placeholders(code);
    var i := 0;
    while i < |placeholders|
      invariant 0 <= i <= |placeholders|
      invariant StepAll(result, placeholders[i..], templates.value) == StepAll(code, placeholders, templates.value)
    {
      var placeholder := placeholders[i];
      var templateName := RemoveAt(placeholder);
      assert placeholders[i..][1..] == placeholders[i + 1..];
      if Usable(templates.value, templateName) {
        result := ReplaceFirst(result, placeholder, Wrapped(templateName, templates.value[templateName]));
      }
      i := i + 1;
    }
  }

  /** Placeholders whose template is missing or empty are skipped. */
  lemma {:induction false} StepAllSkips(result: string, tokens: seq<string>, templates: Templates)
    requires forall i :: 0 <= i < |tokens| ==> !Usable(templates, RemoveAt(tokens[i]))
    ensures StepAll(result, tokens, templates) == result
    decreases |tokens|
  {
    if tokens != [] {
      StepAllSkips(result, tokens[1..], templates);
    }
  }

  /**
   * The code comes back unchanged when it is empty, when there is no map, when
   * it holds no placeholder, or when none of its placeholders names a
   * non-empty template.
   */
  lemma ReplaceTemplatesUnchanged(code: string, templates: Option<Templates>)
    requires || code == "" || templates.None? || (forall i, j :: !TokenAt(code, i, j))
             || (forall i :: 0 <= i < |Placeholders(code)| ==> !Usable(templates.value, RemoveAt(Placeholders(code)[i])))
    ensures ReplaceTemplatesAsWritten(code, templates) == code
  {
    PlaceholdersFound(code);
    if code != "" && templates.Some? {
      StepAllSkips(code, Placeholders(code), templates.value);
    }
  }

  /** The placeholder token `@name@`. */
  function Token(name: string): (t: string)
    ensures |t| == |name| + 2 && t[0] == '@' && t[1..|t| - 1] == name && t[|t| - 1] == '@'
  {
    "@" + name + "@"
  }

  /** Text without `@` in front of the code adds no placeholder. */
  lemma {:induction false} PlaceholdersAfterPlain(p: string, x: string)
    requires '@' !in p
    ensures Placeholders(p + x) == Placeholders(x)
    decreases |p|
  {
    if p == [] {
      assert p + x == x;
    } else {
      assert (p + x)[0] == p[0];
      assert (p + x)[1..] == p[1..] + x;
      PlaceholdersAfterPlain(p[1..], x);
    }
  }

  /** After the opening `@` of `@name@`, the next `@` is the closing one. */
  lemma ClosingAt(name: string, rest: string)
    requires '@' !in name
    ensures NextAt((Token(name) + rest)[1..]) == Some(|name|)
  {
    var s := (Token(name) + rest)[1..];
    assert s[|name|] == '@';
    assert forall k :: 0 <= k < |name| ==> s[k] == name[k];
  }

  /** Code opening with `@name@` has that placeholder first, then those of the rest. */
  lemma PlaceholdersOfToken(name: string, rest: string)
    requires '@' !in name && name != ""
    ensures Placeholders(Token(name) + rest) == [Token(name)] + Placeholders(rest)
  {
    var s := Token(name) + rest;
    ClosingAt(name, rest);
    assert s[..|name| + 2] == Token(name);
    assert s[|name| + 2..] == rest;
  }

  /** `@name@` between two runs of text without `@` is the only placeholder. */
  lemma SinglePlaceholder(p: string, name: string, q: string)
    requires '@' !in p && '@' !in name && '@' !in q && name != ""
    ensures Placeholders(p + Token(name) + q) == [Token(name)]
  {
    assert p + Token(name) + q == p + (Token(name) + q);
    PlaceholdersAfterPlain(p, Token(name) + q);
    PlaceholdersOfToken(name, q);
    PlaceholdersAfterPlain(q, "");
    assert q + "" == q;
  }

  /** The name a placeholder `@name@` stands for. */
  lemma PlaceholderName(name: string)
    requires '@' !in name && name != ""
    ensures RemoveAt(Token(name)) == name
  {
    var token := Token(name);
    assert forall k :: 0 < k < |token| - 1 ==> token[k] == name[k - 1];
    TokenName(token);
  }

  /**
   * Replacing a pattern that opens with `@` in text whose part in front of it
   * has no `@` replaces that occurrence.
   */
  lemma ReplaceFirstAt(p: string, pattern: string, q: string, replacement: string)
    requires |pattern| > 0 && pattern[0] == '@' && '@' !in p
    ensures ReplaceFirst(p + pattern + q, pattern, replacement) == p + Expand(replacement, pattern, p, q) + q
  {
    var s := p + pattern + q;
    assert s[|p|..|p| + |pattern|] == pattern;
    assert OccursAt(s, pattern, |p|);
    assert forall r :: 0 <= r < |p| ==> s[r] != '@';
    var at := IndexFrom(s, pattern, 0);
    assert at.value == |p|;
    assert s[..|p|] == p;
    assert s[|p| + |pattern|..] == q;
  }

  /** ... and a replacement without `$` goes in as it is. */
  lemma ReplaceFirstPlain(p: string, pattern: string, q: string, replacement: string)
    requires |pattern| > 0 && pattern[0] == '@' && '@' !in p && '$' !in replacement
    ensures ReplaceFirst(p + pattern + q, pattern, replacement) == p + replacement + q
  {
    ReplaceFirstAt(p, pattern, q, replacement);
    ExpandPlain(replacement, pattern, p, q);
  }

  /** A pattern at the very start is its first occurrence. */
  lemma ReplaceFirstAtStart(pattern: string, q: string, replacement: string)
    requires '$' !in replacement
    ensures ReplaceFirst(pattern + q, pattern, replacement) == replacement + q
  {
    var s := pattern + q;
    assert s[0..|pattern|] == pattern;
    assert OccursAt(s, pattern, 0);
    assert IndexFrom(s, pattern, 0) == Some(0);
    assert s[..0] == [] && s[|pattern|..] == q;
    ExpandPlain(replacement, pattern, [], q);
  }

  /** A loop over one placeholder is one step. */
  lemma StepAllOne(result: string, token: string, templates: Templates)
    ensures StepAll(result, [token], templates) == Step(result, token, templates)
  {
    assert [token][1..] == [];
  }

  /**
   * A placeholder naming a non-empty template is replaced, once and in place,
   * by the wrapped body, provided neither the name nor the body holds a `$`.
   */
  lemma ReplaceTemplatesReplacesOne(p: string, name: string, q: string, templates: Templates)
    requires '@' !in p && '@' !in name && '@' !in q && name != ""
    requires Usable(templates, name) && '$' !in name && '$' !in templates[name]
    ensures ReplaceTemplatesAsWritten(p + Token(name) + q, Some(templates)) == p + Wrapped(name, templates[name]) + q
  {
    var code := p + Token(name) + q;
    var w := Wrapped(name, templates[name]);
    SinglePlaceholder(p, name, q);
    StepAllOne(code, Token(name), templates);
    PlaceholderName(name);
    assert ReplaceTemplatesAsWritten(code, Some(templates)) == ReplaceFirst(code, Token(name), w);
    BannersLack(name, templates[name], '$');
    ReplaceFirstPlain(p, Token(name), q, w);
  }

  // ------------------------------------------------- the intended behaviour

  /**
   * The intended substitution: one left-to-right pass over the code that
   * finds the placeholders the way the regular expression does and puts the
   * wrapped body, taken literally, in place of each one naming a non-empty
   * template.
   */
  function Substitute(code: string, templates: Templates): string
    decreases |code|
  {
    if code == [] then []
    else if code[0] != '@' then [code[0]] + Substitute(code[1..], templates)
    else match NextAt(code[1..])
      case None => code
      case Some(j) =>
        if j == 0 then "@" + Substitute(code[1..], templates)
        else
          var name := code[1..j + 1];
          (if Usable(templates, name) then Wrapped(name, templates[name]) else code[..j + 2])
          + Substitute(code[j + 2..], templates)
  }

  /** `replaceTemplates` as intended. */
  function ReplaceTemplatesCorrected(code: string, templates: Option<Templates>): string {
    if code == "" || templates.None? then code else Substitute(code, templates.value)
  }

  lemma {:induction false} SubstituteAfterPlain(p: string, x: string, templates: Templates)
    requires '@' !in p
    ensures Substitute(p + x, templates) == p + Substitute(x, templates)
    decreases |p|
  {
    if p == [] {
      assert p + x == x;
    } else {
      assert (p + x)[0] == p[0];
      assert (p + x)[1..] == p[1..] + x;
      SubstituteAfterPlain(p[1..], x, templates);
    }
  }

  /** The text the intended substitution puts in place of `@name@`. */
  function Substituted(name: string, templates: Templates): string {
    if Usable(templates, name) then Wrapped(name, templates[name]) else Token(name)
  }

  /** Code opening with `@name@`: that placeholder is substituted, then the rest on its own. */
  lemma SubstituteToken(name: string, rest: string, templates: Templates)
    requires '@' !in name && name != ""
    ensures Substitute(Token(name) + rest, templates) == Substituted(name, templates) + Substitute(rest, templates)
  {
    var s := Token(name) + rest;
    ClosingAt(name, rest);
    assert s[1..|name| + 1] == name;
    assert s[..|name| + 2] == Token(name);
    assert s[|name| + 2..] == rest;
  }

  /**
   * Each placeholder is replaced where it stands, by its template's wrapped
   * body taken literally (or left as it is when the template is missing or
   * empty), and the rest of the code is substituted on its own, so an
   * inserted body is never scanned again.
   */
  lemma SubstituteInPlace(p: string, name: string, q: string, templates: Templates)
    requires '@' !in p && '@' !in name && name != ""
    ensures Substitute(p + Token(name) + q, templates) == p + Substituted(name, templates) + Substitute(q, templates)
  {
    var x := Token(name) + q;
    Associate(p, Token(name), q);
    SubstituteAfterPlain(p, x, templates);
    SubstituteToken(name, q, templates);
    Associate(p, Substituted(name, templates), Substitute(q, templates));
  }

  /** Regrouping a three-part concatenation, kept apart so that callers do not unfold it. */
  lemma Associate(a: string, b: string, c: string)
    ensures a + b + c == a + (b + c)
  {
  }

  /** Code with no placeholder naming a non-empty template is left as it is. */
  lemma {:induction false} SubstituteUnchanged(code: string, templates: Templates)
    requires forall i :: 0 <= i < |Placeholders(code)| ==> !Usable(templates, RemoveAt(Placeholders(code)[i]))
    ensures Substitute(code, templates) == code
    decreases |code|
  {
    if code != [] {
      if code[0] == '@' && NextAt(code[1..]).Some? && NextAt(code[1..]).value > 0 {
        var j := NextAt(code[1..]).value;
        var name := code[1..j + 1];
        var rest := code[j + 2..];
        assert code == Token(name) + rest;
        SubstituteUnchangedStep(name, rest, templates);
        SubstituteUnchanged(rest, templates);
      } else if code[0] == '@' && NextAt(code[1..]).None? {
      } else {
        SubstituteUnchangedSkip(code, templates);
        SubstituteUnchanged(code[1..], templates);
      }
    }
  }

  /** The step of `SubstituteUnchanged` for code opening with a character that starts no placeholder. */
  lemma SubstituteUnchangedSkip(code: string, templates: Templates)
    requires code != [] && (code[0] != '@' || NextAt(code[1..]) == Some(0))
    ensures Placeholders(code) == Placeholders(code[1..])
    ensures Substitute(code[1..], templates) == code[1..] ==> Substitute(code, templates) == code
  {
    assert [code[0]] + code[1..] == code;
  }

  /** The step of `SubstituteUnchanged` for code opening with a placeholder. */
  lemma SubstituteUnchangedStep(name: string, rest: string, templates: Templates)
    requires '@' !in name && name != ""
    requires var ps := Placeholders(Token(name) + rest);
      forall i :: 0 <= i < |ps| ==> !Usable(templates, RemoveAt(ps[i]))
    ensures forall i :: 0 <= i < |Placeholders(rest)| ==> !Usable(templates, RemoveAt(Placeholders(rest)[i]))
    ensures Substitute(rest, templates) == rest ==> Substitute(Token(name) + rest, templates) == Token(name) + rest
  {
    var ps := Placeholders(Token(name) + rest);
    PlaceholdersOfToken(name, rest);
    assert ps[0] == Token(name);
    PlaceholderName(name);
    forall i | 0 <= i < |Placeholders(rest)|
      ensures !Usable(templates, RemoveAt(Placeholders(rest)[i]))
    {
      assert ps[i + 1] == Placeholders(rest)[i];
    }
    SubstituteToken(name, rest, templates);
  }

  /** Without a map, or with no usable placeholder, the intended substitution changes nothing either. */
  lemma ReplaceTemplatesCorrectedUnchanged(code: string, templates: Option<Templates>)
    requires || code == "" || templates.None?
             || (forall i :: 0 <= i < |Placeholders(code)| ==> !Usable(templates.value, RemoveAt(Placeholders(code)[i])))
    ensures ReplaceTemplatesCorrected(code, templates) == code
  {
    if code != "" && templates.Some? {
      SubstituteUnchanged(code, templates.value);
    }
  }

  // ---------------------------------------------------------- discrepancies

  /** `$&` in a replacement stands for the matched text. */
  lemma ExpandMatchReference(a: string, b: string, matched: string, before: string, after: string)
    requires '$' !in a && '$' !in b
    ensures Expand(a + "$&" + b, matched, before, after) == a + matched + b
  {
    ExpandConcat(a, "$&" + b, matched, before, after);
    assert ("$&" + b)[2..] == b;
    ExpandPlain(b, matched, before, after);
    assert a + "$&" + b == a + ("$&" + b);
  }

  /** Expanding a `$`-free text followed by more text expands only the rest. */
  lemma {:induction false} ExpandConcat(plain: string, rest: string, matched: string, before: string, after: string)
    requires '$' !in plain
    ensures Expand(plain + rest, matched, before, after) == plain + Expand(rest, matched, before, after)
    decreases |plain|
  {
    if plain == [] {
      assert plain + rest == rest;
    } else {
      assert (plain + rest)[0] == plain[0];
      assert (plain + rest)[1..] == plain[1..] + rest;
      ExpandConcat(plain[1..], rest, matched, before, after);
    }
  }

  /** The wrapped body `a$&b` expands to the wrapped body `a<matched>b`. */
  lemma WrappedMatchReference(name: string, a: string, b: string, matched: string, before: string, after: string)
    requires '$' !in name && '$' !in a && '$' !in b
    ensures Expand(Wrapped(name, a + "$&" + b), matched, before, after) == Wrapped(name, a + matched + b)
  {
    BannersLack(name, "", '$');
    assert Wrapped(name, a + "$&" + b) == (Header(name) + a) + "$&" + (b + Footer);
    ExpandMatchReference(Header(name) + a, b + Footer, matched, before, after);
    assert Header(name) + a + matched + (b + Footer) == Wrapped(name, a + matched + b);
  }

  /**
   * A `$&` in a template body is taken by `String.prototype.replace` as a
   * reference to the matched placeholder, so the body is not inserted
   * literally (for the code `@T@` and the body `a$&b` the inserted body is
   * `a@T@b`).
   */
  lemma DollarPatternInBody(p: string, name: string, q: string, a: string, b: string, templates: Templates)
    requires '@' !in p && '@' !in name && '@' !in q && name != ""
    requires '$' !in name && '$' !in a && '$' !in b
    requires name in templates && templates[name] == a + "$&" + b
    ensures ReplaceTemplatesAsWritten(p + Token(name) + q, Some(templates)) == p + Wrapped(name, a + Token(name) + b) + q
  {
    var code := p + Token(name) + q;
    var w := Wrapped(name, templates[name]);
    SinglePlaceholder(p, name, q);
    StepAllOne(code, Token(name), templates);
    PlaceholderName(name);
    assert ReplaceTemplatesAsWritten(code, Some(templates)) == ReplaceFirst(code, Token(name), w);
    ReplaceFirstAt(p, Token(name), q, w);
    WrappedMatchReference(name, a, b, Token(name), p, q);
  }

  /** The intended substitution inserts a body holding `$&` as it is. */
  lemma CorrectedKeepsDollar(p: string, name: string, q: string, templates: Templates)
    requires '@' !in p && '@' !in name && '@' !in q && name != ""
    requires Usable(templates, name)
    ensures ReplaceTemplatesCorrected(p + Token(name) + q, Some(templates)) == p + Wrapped(name, templates[name]) + q
  {
    SubstituteInPlace(p, name, q, templates);
    SubstituteAfterPlain(q, "", templates);
    assert q + "" == q;
  }

  /** The concrete input of `DollarPatternInBody`. */
  lemma DollarPatternExample()
    ensures ReplaceTemplatesAsWritten("@T@", Some(map["T" := "a$&b"])) == Wrapped("T", "a@T@b")
    ensures ReplaceTemplatesCorrected("@T@", Some(map["T" := "a$&b"])) == Wrapped("T", "a$&b")
  {
    var templates := map["T" := "a$&b"];
    assert "" + Token("T") + "" == "@T@";
    assert "a" + "$&" + "b" == "a$&b";
    assert "a" + Token("T") + "b" == "a@T@b";
    DollarPatternInBody("", "T", "", "a", "b", templates);
    CorrectedKeepsDollar("", "T", "", templates);
  }

  /** The placeholders of `@a@@b@`. */
  lemma TwoPlaceholders(a: string, b: string)
    requires '@' !in a && '@' !in b && a != "" && b != ""
    ensures Placeholders(Token(a) + Token(b)) == [Token(a), Token(b)]
  {
    PlaceholdersOfToken(a, Token(b));
    SinglePlaceholder("", b, "");
    assert "" + Token(b) + "" == Token(b);
  }

  /** How the text after the first step of the loop on `@a@@b@` is laid out. */
  lemma Regroup(a: string, x: string, tb: string, y: string, w: string)
    ensures Wrapped(a, x + tb + y) + tb == (Header(a) + x) + tb + (y + Footer + tb)
    ensures (Header(a) + x) + w + (y + Footer + tb) == Wrapped(a, x + w + y) + tb
  {
  }

  /** The second step of the loop on `@a@@b@` replaces the `@b@` inside the inserted body of `a`. */
  lemma SecondStepInsideBody(a: string, b: string, x: string, y: string, templates: Templates)
    requires '@' !in a && '@' !in b && b != "" && '@' !in x && '$' !in b
    requires Usable(templates, b) && '$' !in templates[b]
    ensures Step(Wrapped(a, x + Token(b) + y) + Token(b), Token(b), templates)
            == Wrapped(a, x + Wrapped(b, templates[b]) + y) + Token(b)
  {
    var tb := Token(b);
    var w := Wrapped(b, templates[b]);
    var s := Wrapped(a, x + tb + y) + tb;
    var before := Header(a) + x;
    var after := y + Footer + tb;
    PlaceholderName(b);
    assert Step(s, tb, templates) == ReplaceFirst(s, tb, w);
    Regroup(a, x, tb, y, w);
    BannersLack(a, "", '@');
    BannersLack(b, templates[b], '$');
    ReplaceFirstPlain(before, tb, after, w);
  }

  /** A step for a placeholder naming a non-empty template replaces its first occurrence. */
  lemma StepUsable(result: string, name: string, templates: Templates)
    requires '@' !in name && name != "" && Usable(templates, name)
    ensures Step(result, Token(name), templates) == ReplaceFirst(result, Token(name), Wrapped(name, templates[name]))
  {
    PlaceholderName(name);
  }

  /** The first step of the loop on `@a@@b@` replaces `@a@`. */
  lemma FirstStep(a: string, b: string, templates: Templates)
    requires '@' !in a && a != "" && '$' !in a
    requires Usable(templates, a) && '$' !in templates[a]
    ensures Step(Token(a) + Token(b), Token(a), templates) == Wrapped(a, templates[a]) + Token(b)
  {
    var w := Wrapped(a, templates[a]);
    var code := Token(a) + Token(b);
    StepUsable(code, a, templates);
    BannersLack(a, templates[a], '$');
    ReplaceFirstAtStart(Token(a), Token(b), w);
  }

  /**
   * The placeholders are collected from the original code, but each is then
   * replaced at its first occurrence in the code as already substituted: when
   * the body of the template of a first placeholder `@a@` holds the second
   * placeholder `@b@`, it is that copy which is replaced, and the original
   * `@b@` stays in the result.
   */
  lemma ReplacementInsideInsertedBody(a: string, b: string, x: string, y: string, templates: Templates)
    requires '@' !in a && '@' !in b && a != "" && b != "" && '$' !in a && '$' !in b
    requires '@' !in x && '$' !in x && '$' !in y
    requires a in templates && templates[a] == x + Token(b) + y
    requires Usable(templates, b) && '$' !in templates[b]
    ensures ReplaceTemplatesAsWritten(Token(a) + Token(b), Some(templates))
            == Wrapped(a, x + Wrapped(b, templates[b]) + y) + Token(b)
  {
    var code := Token(a) + Token(b);
    TwoPlaceholders(a, b);
    assert [Token(a), Token(b)][1..] == [Token(b)];
    BannersLack(a, "", '$');
    FirstStep(a, b, templates);
    var first := Step(code, Token(a), templates);
    assert StepAll(code, [Token(a), Token(b)], templates) == StepAll(first, [Token(b)], templates);
    StepAllOne(first, Token(b), templates);
    SecondStepInsideBody(a, b, x, y, templates);
  }

  /** The intended substitution replaces each placeholder of `@a@@b@` where it stands. */
  lemma CorrectedReplacesInPlace(a: string, b: string, templates: Templates)
    requires '@' !in a && '@' !in b && a != "" && b != ""
    ensures ReplaceTemplatesCorrected(Token(a) + Token(b), Some(templates))
            == Substituted(a, templates) + Substituted(b, templates)
  {
    SubstituteToken(a, Token(b), templates);
    assert Token(b) == Token(b) + "";
    SubstituteToken(b, "", templates);
  }

  /** The concrete input of `ReplacementInsideInsertedBody`. */
  lemma ReplacementInsideInsertedBodyExample()
    ensures ReplaceTemplatesAsWritten("@A@@B@", Some(map["A" := "@B@", "B" := "x"]))
            == Wrapped("A", Wrapped("B", "x")) + "@B@"
    ensures ReplaceTemplatesCorrected("@A@@B@", Some(map["A" := "@B@", "B" := "x"]))
            == Wrapped("A", "@B@") + Wrapped("B", "x")
  {
    var templates := map["A" := "@B@", "B" := "x"];
    assert Token("A") + Token("B") == "@A@@B@";
    assert "" + Token("B") + "" == "@B@";
    assert "" + Wrapped("B", "x") + "" == Wrapped("B", "x");
    ReplacementInsideInsertedBody("A", "B", "", "", templates);
    CorrectedReplacesInPlace("A", "B", templates);
  }
}
