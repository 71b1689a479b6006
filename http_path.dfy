/** HTTP paths of the brewing framework: validated path components, the
    trailing-slash policy, parsing a path string into components, rendering
    a path back to the string a router is given, and building child paths. */
module HttpPath {
  import opened Wrappers
  import opened Strings

  /** What a component says about a trailing slash: an explicit `True` or
      `False`, or the `...` sentinel that leaves the choice to the policy. */
  datatype TrailingSlash = Slash(enabled: bool) | Deferred

  datatype PathValidationError = PathValidationError(value: string)

  /** Raised by the rendering as written; see RenderAsWritten. */
  datatype IndexError = IndexError

  datatype Component = Component(value: string, isConstant: bool, trailingSlash: TrailingSlash)

  /** One character of the class `[0-9A-Za-z\-_]`. */
  predicate IsPathChar(c: char)
  {
    ('0' <= c <= '9') || ('A' <= c <= 'Z') || ('a' <= c <= 'z') || c == '-' || c == '_'
  }

  predicate PathChars(s: string)
  {
    forall i :: 0 <= i < |s| ==> IsPathChar(s[i])
  }

  /** `s` in full matches `[0-9A-Za-z\-_]*`. */
  predicate IsConstantValue(s: string)
  {
    PathChars(s)
  }

  /** `s` in full matches `{[0-9A-Za-z\-_]*}`. */
  predicate IsVariableValue(s: string)
  {
    |s| >= 2 && s[0] == '{' && s[|s| - 1] == '}' && PathChars(s[1..|s| - 1])
  }

  predicate IsAllowedValue(s: string)
  {
    IsConstantValue(s) || IsVariableValue(s)
  }

  predicate NoBraces(s: string)
  {
    forall i :: 0 <= i < |s| ==> s[i] != '{' && s[i] != '}'
  }

  /** An allowed value never holds a slash, and it is constant exactly when
      it has no braces. */
  lemma AllowedValueFacts(s: string)
    requires IsAllowedValue(s)
    ensures '/' !in s
    ensures IsConstantValue(s) <==> NoBraces(s)
  {
    if IsVariableValue(s) {
      assert s[0] == '{';
    }
    if !IsConstantValue(s) {
      assert IsVariableValue(s) && s[0] == '{';
    }
  }

  /** A component as made by the constructor: the value is allowed and
      `isConstant` records whether it is the constant form. */
  predicate ValidComponent(c: Component)
  {
    IsAllowedValue(c.value) && c.isConstant == IsConstantValue(c.value)
  }

  /** The component constructor (validated against a full match). */
  function NewComponent(value: string, trailingSlash: TrailingSlash): (r: Result<Component, PathValidationError>)
    ensures r.Success? <==> IsAllowedValue(value)
    ensures r.Failure? ==> r.error == PathValidationError(value)
    ensures r.Success? ==> ValidComponent(r.value) && r.value.value == value
                           && r.value.trailingSlash == trailingSlash
    ensures r.Success? ==> '/' !in value && (r.value.isConstant <==> NoBraces(value))
  {
    if IsAllowedValue(value) then
      AllowedValueFacts(value);
      Success(Component(value, IsConstantValue(value), trailingSlash))
    else
      Failure(PathValidationError(value))
  }

  /** `s` with one final newline removed, if it ends with one. */
  function WithoutFinalNewline(s: string): string
  {
    if |s| > 0 && s[|s| - 1] == '\n' then s[..|s| - 1] else s
  }

  /** The constructor as written: `re.match` with a pattern anchored by `$`,
      which also matches just before a newline that ends the string. */
  function NewComponentAsWritten(value: string, trailingSlash: TrailingSlash): (r: Result<Component, PathValidationError>)
    ensures r.Success? <==> IsAllowedValue(value) || IsAllowedValue(WithoutFinalNewline(value))
    ensures IsAllowedValue(value) ==> r == NewComponent(value, trailingSlash)
  {
    if IsAllowedValue(value) || IsAllowedValue(WithoutFinalNewline(value)) then
      var constant := IsConstantValue(value) || IsConstantValue(WithoutFinalNewline(value));
      Success(Component(value, constant, trailingSlash))
    else
      Failure(PathValidationError(value))
  }

  /** The component "items" followed by a newline passes the check as
      written and is rejected by the full match. */
  lemma TrailingNewlineAccepted()
    ensures NewComponentAsWritten("items\n", Deferred).Success?
    ensures NewComponentAsWritten("items\n", Deferred).value.isConstant
    ensures NewComponent("items\n", Deferred).Failure?
  {
    assert WithoutFinalNewline("items\n") == "items";
    assert !IsPathChar("items\n"[5]);
  }

  datatype TrailingSlashPolicy = TrailingSlashPolicy(onConstant: bool, onVariable: bool)

  function DefaultPolicy(): TrailingSlashPolicy
  {
    TrailingSlashPolicy(onConstant := true, onVariable := false)
  }

  /** The policy evaluated for a component. */
  function Decide(policy: TrailingSlashPolicy, c: Component): bool
  {
    if c.isConstant then policy.onConstant else policy.onVariable
  }

  /** The default policy puts a slash after a brace-free value and none
      after a `{...}` value. */
  lemma DefaultPolicyDecision(value: string, trailingSlash: TrailingSlash)
    requires NewComponent(value, trailingSlash).Success?
    ensures Decide(DefaultPolicy(), NewComponent(value, trailingSlash).value) <==> NoBraces(value)
  {
  }

  /** Whether a path was built from a string or from a tuple of components. */
  datatype PathSource = FromText(text: string) | FromParts

  datatype HTTPPath = HTTPPath(source: PathSource, trailingSlash: bool, parts: seq<Component>,
                               policy: TrailingSlashPolicy)

  /** The trailing_slash a path string gives its last component. */
  function TextTrailingSlash(text: string): bool
  {
    text == "" || text[|text| - 1] == '/'
  }

  /** The trailing_slash given to piece `i` of `n` when parsing. */
  function PieceSlash(i: nat, n: nat, last: bool): TrailingSlash
  {
    if i == n - 1 then Slash(last) else Deferred
  }

  predicate AllAllowed(pieces: seq<string>)
  {
    forall k :: 0 <= k < |pieces| ==> IsAllowedValue(pieces[k])
  }

  lemma AllAllowedConcat(a: seq<string>, b: seq<string>)
    requires AllAllowed(a) && AllAllowed(b)
    ensures AllAllowed(a + b)
  {
    forall k | 0 <= k < |a + b| ensures IsAllowedValue((a + b)[k]) {
      if k >= |a| {
        assert (a + b)[k] == b[k - |a|];
      }
    }
  }

  /** Index of the first piece that is not an allowed value, or `|pieces|`. */
  function FirstInvalid(pieces: seq<string>): (k: nat)
    ensures k <= |pieces|
    ensures forall j :: 0 <= j < k ==> IsAllowedValue(pieces[j])
    ensures k < |pieces| ==> !IsAllowedValue(pieces[k])
  {
    if pieces == [] then 0
    else if !IsAllowedValue(pieces[0]) then 0
    else 1 + FirstInvalid(pieces[1..])
  }

  function Values(parts: seq<Component>): (vs: seq<string>)
    ensures |vs| == |parts| && forall i :: 0 <= i < |parts| ==> vs[i] == parts[i].value
  {
    seq(|parts|, i requires 0 <= i < |parts| => parts[i].value)
  }

  /** The path built from a string: one component per piece of
      `text.split("/")`, the last one carrying the string's trailing slash
      and the others the `...` sentinel; the first piece that is not an
      allowed value raises. */
  function Parse(text: string, policy: TrailingSlashPolicy): (r: Result<HTTPPath, PathValidationError>)
    ensures r.Success? <==> AllAllowed(Split(text, '/'))
    ensures r.Failure? ==> exists k :: 0 <= k < |Split(text, '/')| && r.error.value == Split(text, '/')[k]
                                        && !IsAllowedValue(Split(text, '/')[k])
                                        && forall j :: 0 <= j < k ==> IsAllowedValue(Split(text, '/')[j])
    ensures r.Success? ==> Values(r.value.parts) == Split(text, '/')
    ensures r.Success? ==> Join(Values(r.value.parts), '/') == text
    ensures r.Success? ==> r.value.policy == policy && |r.value.parts| > 0
    ensures r.Success? ==> forall k :: 0 <= k < |r.value.parts| - 1 ==> r.value.parts[k].trailingSlash == Deferred
    ensures r.Success? ==> r.value.parts[|r.value.parts| - 1].trailingSlash
                             == Slash(text == "" || text[|text| - 1] == '/')
  {
    var pieces := Split(text, '/');
    var k := FirstInvalid(pieces);
    if k < |pieces| then
      assert !IsAllowedValue(pieces[k]);
      assert !AllAllowed(pieces);
      Failure(PathValidationError(pieces[k]))
    else
      var last := TextTrailingSlash(text);
      var parts := seq(|pieces|, i requires 0 <= i < |pieces| =>
                         Component(pieces[i], IsConstantValue(pieces[i]), PieceSlash(i, |pieces|, last)));
      assert Values(parts) == pieces;
      Success(HTTPPath(FromText(text), last, parts, policy))
  }

  /** The HTTPPath constructor given a string: it splits the string and
      appends one validated component per piece. */
  method BuildFromText(text: string, policy: TrailingSlashPolicy) returns (r: Result<HTTPPath, PathValidationError>)
    ensures r == Parse(text, policy)
  {
    var trailing := text == "" || text[|text| - 1] == '/';
    var pieces := Split(text, '/');
    var parts: seq<Component> := [];
    var index := 0;
    while index < |pieces|
      invariant 0 <= index <= |pieces|
      invariant forall j :: 0 <= j < index ==> IsAllowedValue(pieces[j])
      invariant |parts| == index
      invariant forall j :: 0 <= j < index ==>
                  parts[j] == Component(pieces[j], IsConstantValue(pieces[j]), PieceSlash(j, |pieces|, trailing))
    {
      var slash := if index == |pieces| - 1 then Slash(trailing) else Deferred;
      var component := NewComponent(pieces[index], slash);
      if component.Failure? {
        assert !IsAllowedValue(pieces[index]);
        assert FirstInvalid(pieces) == index;
        return Failure(component.error);
      }
      parts := parts + [component.value];
      index := index + 1;
    }
    assert FirstInvalid(pieces) == |pieces|;
    assert trailing == TextTrailingSlash(text);
    assert parts == seq(|pieces|, i requires 0 <= i < |pieces| =>
                          Component(pieces[i], IsConstantValue(pieces[i]), PieceSlash(i, |pieces|, trailing)));
    r := Success(HTTPPath(FromText(text), trailing, parts, policy));
  }

  /** A path built by the constructors: a path from a string is exactly what
      parsing that string gives; a path from a tuple has valid, non-empty parts. */
  ghost predicate WellFormed(p: HTTPPath)
  {
    && |p.parts| > 0
    && (forall i :: 0 <= i < |p.parts| ==> ValidComponent(p.parts[i]))
    && (p.source.FromText? ==> Parse(p.source.text, p.policy) == Success(p))
  }

  lemma ParseWellFormed(text: string, policy: TrailingSlashPolicy)
    requires Parse(text, policy).Success?
    ensures WellFormed(Parse(text, policy).value)
  {
  }

  /** The non-empty values joined by '/'. */
  function Body(parts: seq<Component>): string
  {
    Join(NonEmpty(Values(parts)), '/')
  }

  /** Whether the last component asks for a trailing slash, explicitly or
      through the policy. */
  predicate WantsSlash(p: HTTPPath)
    requires |p.parts| > 0
  {
    var last := p.parts[|p.parts| - 1];
    last.trailingSlash == Slash(true) || (last.trailingSlash == Deferred && Decide(p.policy, last))
  }

  /** `str(path)` as written: the join of the non-empty values is indexed
      at 0 without a check, so a non-empty path whose values are all empty
      raises. */
  function RenderAsWritten(p: HTTPPath): (r: Result<string, IndexError>)
    requires |p.parts| > 0
    ensures r.Failure? <==> p.source != FromText("") && Body(p.parts) == ""
  {
    if p.source == FromText("") then Success("/")
    else
      var joined := Body(p.parts);
      if joined == "" then Failure(IndexError)
      else
        var retval := if joined[0] != '/' then "/" + joined else joined;
        if WantsSlash(p) && retval[|retval| - 1] != '/' then Success(retval + "/") else Success(retval)
  }

  /** The body of a well-formed path neither starts nor ends with '/'. */
  lemma BodyEdges(p: HTTPPath)
    requires WellFormed(p)
    requires Body(p.parts) != ""
    ensures Body(p.parts)[0] != '/' && Body(p.parts)[|Body(p.parts)| - 1] != '/'
  {
    var vs := NonEmpty(Values(p.parts));
    assert |vs| > 0;
    forall k | 0 <= k < |vs| ensures '/' !in vs[k] {
      var i :| 0 <= i < |p.parts| && Values(p.parts)[i] == vs[k];
      AllowedValueFacts(p.parts[i].value);
    }
    JoinFirstChar(vs, '/');
    JoinLastChar(vs, '/');
    assert vs[0][0] in vs[0];
    assert vs[|vs| - 1][|vs[|vs| - 1]| - 1] in vs[|vs| - 1];
  }

  /** `str(path)`, with the empty join rendered as "/".
      The result starts with '/', is the non-empty values joined by '/',
      and ends with '/' exactly when the last component (or the policy)
      asks for it or there is nothing after the leading slash. */
  function Render(p: HTTPPath): (r: string)
    requires WellFormed(p)
    ensures |r| > 0 && r[0] == '/'
    ensures r == "/" + Body(p.parts) + (if WantsSlash(p) && Body(p.parts) != "" then "/" else "")
    ensures r[|r| - 1] == '/' <==> WantsSlash(p) || Body(p.parts) == ""
    ensures RenderAsWritten(p).Success? ==> RenderAsWritten(p).value == r
  {
    if p.source == FromText("") then
      assert Split("", '/') == [""];
      assert Body(p.parts) == "";
      "/"
    else
      var joined := Body(p.parts);
      if joined == "" then "/"
      else
        BodyEdges(p);
        var retval := if joined[0] != '/' then "/" + joined else joined;
        if WantsSlash(p) && retval[|retval| - 1] != '/' then retval + "/" else retval
  }

  /** The path "/" parses, its rendering as written raises, and the
      corrected rendering gives "/". */
  lemma RootSlashRendering()
    ensures Parse("/", DefaultPolicy()).Success?
    ensures RenderAsWritten(Parse("/", DefaultPolicy()).value) == Failure(IndexError)
    ensures Render(Parse("/", DefaultPolicy()).value) == "/"
  {
    assert Split("", '/') == [""];
    assert Split("/", '/') == ["", ""];
    var p := Parse("/", DefaultPolicy()).value;
    assert Values(p.parts) == ["", ""];
    assert NonEmpty(["", ""]) == [];
    ParseWellFormed("/", DefaultPolicy());
  }

  /** A child path: the parent's parts and one new component, with the
      parent's policy. The parent, a value, is unchanged. */
  function Child(p: HTTPPath, value: string, trailingSlash: TrailingSlash): (r: Result<HTTPPath, PathValidationError>)
    ensures r.Success? <==> IsAllowedValue(value)
    ensures r.Failure? ==> r.error == PathValidationError(value)
    ensures r.Success? ==> && |r.value.parts| == |p.parts| + 1
                           && r.value.parts[..|p.parts|] == p.parts
                           && r.value.parts[|p.parts|].value == value
                           && r.value.parts[|p.parts|].trailingSlash == trailingSlash
                           && r.value.policy == p.policy
    ensures r.Success? && WellFormed(p) ==> WellFormed(r.value)
  {
    var c :- NewComponent(value, trailingSlash);
    Success(HTTPPath(FromParts, true, p.parts + [c], p.policy))
  }

  /** Parse and Child are built on the corrected component check: the
      string "items" followed by a newline is one piece that the check as
      written lets through, yet it neither parses as a path nor makes a
      child path. */
  lemma NewlinePieceRefused(p: HTTPPath)
    ensures Split("items\n", '/') == ["items\n"]
    ensures NewComponentAsWritten("items\n", Slash(false)).Success?
    ensures Parse("items\n", DefaultPolicy()).Failure?
    ensures NewComponentAsWritten("items\n", Deferred).Success?
    ensures Child(p, "items\n", Deferred).Failure?
  {
    assert '/' !in "items\n";
    SplitWithoutSeparator("items\n", '/');
    assert WithoutFinalNewline("items\n") == "items";
    assert !IsPathChar("items\n"[5]);
    assert !IsAllowedValue(Split("items\n", '/')[0]);
  }

  /** A string whose '/'-separated pieces are all non-empty allowed values. */
  ghost predicate Canonical(s: string)
  {
    forall k :: 0 <= k < |Split(s, '/')| ==> Split(s, '/')[k] != "" && IsAllowedValue(Split(s, '/')[k])
  }

  /** The string `s` with an optional slash on each side. */
  function Surround(s: string, lead: bool, trail: bool): string
  {
    (if lead then "/" else "") + s + (if trail then "/" else "")
  }

  /** A slash added on either side of a string adds an empty piece there. */
  lemma SurroundedPieces(s: string, lead: bool, trail: bool)
    ensures Split(Surround(s, lead, trail), '/')
            == (if lead then [""] else []) + Split(s, '/') + (if trail then [""] else [])
  {
    var middle := s + (if trail then "/" else "");
    assert Split("", '/') == [""];
    if trail {
      SplitAround(s, "", '/');
      assert s + ['/'] + "" == middle;
    } else {
      assert middle == s;
    }
    assert Split(middle, '/') == Split(s, '/') + (if trail then [""] else []);
    if lead {
      SplitAround("", middle, '/');
      assert "" + ['/'] + middle == Surround(s, lead, trail);
    } else {
      assert middle == Surround(s, lead, trail);
    }
  }

  /** A canonical string is not empty and does not end with a slash. */
  lemma CanonicalEnds(s: string)
    requires Canonical(s)
    ensures |s| > 0 && s[|s| - 1] != '/'
  {
    var pieces := Split(s, '/');
    assert pieces[0] != "";
    JoinLastChar(pieces, '/');
    var last := pieces[|pieces| - 1];
    assert last[|last| - 1] in last;
  }

  /** The non-empty values of a surrounded canonical string are its pieces. */
  /** Every piece of a surrounded canonical string is allowed. */
  lemma SurroundedAllowed(s: string, lead: bool, trail: bool)
    requires Canonical(s)
    ensures AllAllowed((if lead then [""] else []) + Split(s, '/') + (if trail then [""] else []))
  {
    var front: seq<string> := if lead then [""] else [];
    var back: seq<string> := if trail then [""] else [];
    assert AllAllowed(front) && AllAllowed(back) && AllAllowed(Split(s, '/'));
    AllAllowedConcat(front, Split(s, '/'));
    AllAllowedConcat(front + Split(s, '/'), back);
  }

  /** Dropping the empty pieces of a surrounded canonical string leaves its own pieces. */
  lemma SurroundedNonEmpty(s: string, lead: bool, trail: bool)
    requires Canonical(s)
    ensures NonEmpty((if lead then [""] else []) + Split(s, '/') + (if trail then [""] else [])) == Split(s, '/')
  {
    var pieces := Split(s, '/');
    var front: seq<string> := if lead then [""] else [];
    var back: seq<string> := if trail then [""] else [];
    assert NonEmpty(front) == [] by {
      if lead { assert front[1..] == []; }
    }
    assert NonEmpty(back) == [] by {
      if trail { assert back[1..] == []; }
    }
    NonEmptyAll(pieces);
    NonEmptyConcat(front, pieces);
    assert NonEmpty(front + pieces) == pieces;
    NonEmptyConcat(front + pieces, back);
    assert pieces + [] == pieces;
  }

  lemma SurroundedBody(s: string, lead: bool, trail: bool, policy: TrailingSlashPolicy)
    requires Canonical(s)
    ensures Parse(Surround(s, lead, trail), policy).Success?
    ensures Body(Parse(Surround(s, lead, trail), policy).value.parts) == s
  {
    var text := Surround(s, lead, trail);
    var vs := (if lead then [""] else []) + Split(s, '/') + (if trail then [""] else []);
    SurroundedPieces(s, lead, trail);
    assert Split(text, '/') == vs;
    SurroundedAllowed(s, lead, trail);
    SurroundedNonEmpty(s, lead, trail);
    var r := Parse(text, policy);
    assert r.Success?;
    assert Values(r.value.parts) == vs;
    assert NonEmpty(Values(r.value.parts)) == Split(s, '/');
  }

  /** Parsing then rendering normalises a path string: a leading slash is
      optional, and a trailing slash is kept exactly when it was given. */
  lemma RenderParse(s: string, lead: bool, trail: bool, policy: TrailingSlashPolicy)
    requires Canonical(s)
    ensures Parse(Surround(s, lead, trail), policy).Success?
    ensures WellFormed(Parse(Surround(s, lead, trail), policy).value)
    ensures Render(Parse(Surround(s, lead, trail), policy).value) == "/" + s + (if trail then "/" else "")
  {
    var text := Surround(s, lead, trail);
    SurroundedBody(s, lead, trail, policy);
    ParseWellFormed(text, policy);
    CanonicalEnds(s);
    assert TextTrailingSlash(text) == trail;
  }

  /** Rendering a child appends '/' and the new value to the parent's body,
      and the child's trailing slash is decided by the new component alone. */
  lemma ChildRendering(p: HTTPPath, value: string, trailingSlash: TrailingSlash)
    requires WellFormed(p)
    requires value != "" && IsAllowedValue(value)
    ensures Child(p, value, trailingSlash).Success?
    ensures var c := Child(p, value, trailingSlash).value;
            && WellFormed(c)
            && Render(c) == "/" + (if Body(p.parts) == "" then value else Body(p.parts) + "/" + value)
                            + (if WantsSlash(c) then "/" else "")
            && (WantsSlash(c) <==> trailingSlash == Slash(true)
                                   || (trailingSlash == Deferred && Decide(p.policy, c.parts[|c.parts| - 1])))
  {
    var c := Child(p, value, trailingSlash).value;
    assert Values(c.parts) == Values(p.parts) + [value];
    NonEmptyConcat(Values(p.parts), [value]);
    assert NonEmpty([value]) == [value];
    var vs := NonEmpty(Values(p.parts));
    if vs == [] {
      assert Body(c.parts) == value;
    } else {
      JoinAppend(vs, value);
    }
  }

  lemma {:induction false} JoinAppend(parts: seq<string>, last: string)
    requires |parts| > 0
    ensures Join(parts + [last], '/') == Join(parts, '/') + "/" + last
    decreases |parts|
  {
    if |parts| > 1 {
      assert (parts + [last])[1..] == parts[1..] + [last];
      JoinAppend(parts[1..], last);
    }
  }

  /** A child with a non-empty value renders longer than its parent, so the
      parent's string never starts with the child's. */
  lemma ChildNotPrefixOfParent(p: HTTPPath, value: string, trailingSlash: TrailingSlash)
    requires WellFormed(p)
    requires value != "" && IsAllowedValue(value)
    ensures Child(p, value, trailingSlash).Success?
    ensures !(Render(Child(p, value, trailingSlash).value) <= Render(p))
  {
    ChildRendering(p, value, trailingSlash);
    var c := Child(p, value, trailingSlash).value;
    assert |Render(c)| > |Render(p)|;
  }
}
