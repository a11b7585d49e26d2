/**
 * The template strategy for comment text: `template.format(**fields)`, returning the
 * template unchanged when a named placeholder has no binding (the KeyError case). Every
 * other exception `str.format` raises escapes the call and is a `Failure` here.
 *
 * The formatter reads the template left to right and fails at the first problem, so a
 * missing key that comes before a malformed brace wins, and vice versa. `Format` is that
 * one-pass reading; `Parse` is the independent two-phase reading (first the pieces up to
 * the first error, then the substitution) that the contracts are stated against.
 */
module Template {
  import opened Common

  /** A literal character or a named placeholder. */
  datatype Piece = Char(c: char) | Field(name: string)

  /** Why `str.format` raises something other than KeyError. */
  datatype FormatError =
    | SingleClose   // a '}' that is not doubled
    | Unclosed      // a '{' with no '}' after it
    | Positional    // '{}' or '{0}': there are no positional arguments
    | Unmodelled    // conversion, format spec, attribute or index access: no claim is made

  /** The next step of the left-to-right reading of a template. */
  datatype Token =
    | End
    | Lit(c: char, rest: string)
    | Fld(name: string, rest: string)
    | Bad(error: FormatError)

  /** Outcome of `str.format` with keyword arguments only. */
  datatype Formatted = Done(text: string) | MissingKey(key: string) | Raised(error: FormatError)

  /** Index of the first `c` in `s`, or `|s|` when there is none. */
  function IndexOf(s: string, c: char): (k: nat)
    ensures k <= |s|
    ensures k < |s| ==> s[k] == c
    ensures forall i :: 0 <= i < k ==> s[i] != c
  {
    if |s| == 0 then 0 else if s[0] == c then 0 else 1 + IndexOf(s[1..], c)
  }

  /** Characters that make a field more than a plain keyword name. A ']' is ordinary
      unless a '[' opened an index, so it is not among them. */
  predicate IsSpecial(c: char) {
    c in "{}[!:."
  }

  predicate AllDigits(name: string) {
    forall i :: 0 <= i < |name| ==> '0' <= name[i] <= '9'
  }

  predicate IsPlainName(name: string) {
    forall i :: 0 <= i < |name| ==> !IsSpecial(name[i])
  }

  /** A placeholder name looked up among the keyword arguments. */
  predicate IsKeywordName(name: string) {
    IsPlainName(name) && !AllDigits(name)
  }

  function NextToken(t: string): (tok: Token)
    ensures tok.Lit? ==> |tok.rest| < |t|
    ensures tok.Fld? ==> |tok.rest| < |t| && IsKeywordName(tok.name)
  {
    if |t| == 0 then End
    else if t[0] == '{' then
      if 1 < |t| && t[1] == '{' then Lit('{', t[2..])
      else
        var k := IndexOf(t[1..], '}');
        if k == |t| - 1 then Bad(Unclosed)
        else
          var name := t[1..k + 1];
          if !IsPlainName(name) then Bad(Unmodelled)
          else if AllDigits(name) then Bad(Positional)
          else Fld(name, t[k + 2..])
    else if t[0] == '}' then
      if 1 < |t| && t[1] == '}' then Lit('}', t[2..]) else Bad(SingleClose)
    else Lit(t[0], t[1..])
  }

  function Emit(s: string, f: Formatted): Formatted {
    match f
    case Done(text) => Done(s + text)
    case _ => f
  }

  /** `template.format(**fields)`, one token at a time. */
  function Format(t: string, fields: map<string, string>): Formatted
    decreases |t|
  {
    match NextToken(t)
    case End => Done([])
    case Lit(c, rest) => Emit([c], Format(rest, fields))
    case Fld(name, rest) =>
      if name in fields then Emit(fields[name], Format(rest, fields)) else MissingKey(name)
    case Bad(e) => Raised(e)
  }

  /** The pieces of a template up to the first error, and that error if there is one. */
  datatype Parsed = Parsed(pieces: seq<Piece>, stop: Option<FormatError>)

  function Parse(t: string): Parsed
    decreases |t|
  {
    match NextToken(t)
    case End => Parsed([], None)
    case Lit(c, rest) => var p := Parse(rest); Parsed([Char(c)] + p.pieces, p.stop)
    case Fld(name, rest) => var p := Parse(rest); Parsed([Field(name)] + p.pieces, p.stop)
    case Bad(e) => Parsed([], Some(e))
  }

  /** Every placeholder among `pieces` has a binding. */
  predicate AllBound(pieces: seq<Piece>, fields: map<string, string>) {
    forall i :: 0 <= i < |pieces| && pieces[i].Field? ==> pieces[i].name in fields
  }

  /** The text the pieces stand for once every placeholder is replaced by its binding. */
  function Render(pieces: seq<Piece>, fields: map<string, string>): string
    requires AllBound(pieces, fields)
  {
    if |pieces| == 0 then []
    else
      (match pieces[0]
       case Char(c) => [c]
       case Field(name) => fields[name])
      + Render(pieces[1..], fields)
  }

  /** Prepending a bound piece does not change whether all placeholders are bound. */
  lemma AllBoundCons(head: Piece, tail: seq<Piece>, fields: map<string, string>)
    requires head.Field? ==> head.name in fields
    ensures AllBound([head] + tail, fields) <==> AllBound(tail, fields)
  {
    var ps := [head] + tail;
    if AllBound(ps, fields) {
      forall i | 0 <= i < |tail| && tail[i].Field?
        ensures tail[i].name in fields
      {
        assert tail[i] == ps[i + 1];
      }
    }
  }

  /** The one-pass reading agrees with parsing first and substituting afterwards. */
  lemma {:induction false} FormatMatchesParse(t: string, fields: map<string, string>)
    ensures var p := Parse(t);
            && (Format(t, fields).MissingKey? <==> !AllBound(p.pieces, fields))
            && (AllBound(p.pieces, fields) && p.stop.Some? ==> Format(t, fields) == Raised(p.stop.value))
            && (AllBound(p.pieces, fields) && p.stop.None? ==> Format(t, fields) == Done(Render(p.pieces, fields)))
    decreases |t|
  {
    var p := Parse(t);
    match NextToken(t)
    case End =>
    case Bad(e) =>
    case Lit(c, rest) =>
      FormatMatchesParse(rest, fields);
      var q := Parse(rest);
      assert p.pieces == [Char(c)] + q.pieces;
      assert p.pieces[1..] == q.pieces;
      AllBoundCons(Char(c), q.pieces, fields);
    case Fld(name, rest) =>
      FormatMatchesParse(rest, fields);
      var q := Parse(rest);
      assert p.pieces == [Field(name)] + q.pieces;
      assert p.pieces[1..] == q.pieces;
      if name !in fields {
        assert p.pieces[0].Field? && p.pieces[0].name !in fields;
      } else {
        AllBoundCons(Field(name), q.pieces, fields);
      }
  }

  /** generate_comment(template, **fields): the substituted text when every placeholder
      before the first malformed spot is bound, the template itself when one of them is
      not, and the escaping exception otherwise. */
  function GenerateComment(template: string, fields: map<string, string>): (r: Result<string, FormatError>)
    ensures var p := Parse(template);
            && (!AllBound(p.pieces, fields) ==> r == Success(template))
            && (AllBound(p.pieces, fields) && p.stop.None? ==> r == Success(Render(p.pieces, fields)))
            && (AllBound(p.pieces, fields) && p.stop.Some? ==> r == Failure(p.stop.value))
  {
    FormatMatchesParse(template, fields);
    match Format(template, fields)
    case Done(text) => Success(text)
    case MissingKey(_) => Success(template)
    case Raised(e) => Failure(e)
  }

  // ---------------------------------------------------------------------------
  // Writing templates: the inverse of Parse

  /** Pieces that a template can spell: placeholders carry keyword names. */
  predicate WellFormed(pieces: seq<Piece>) {
    forall i :: 0 <= i < |pieces| && pieces[i].Field? ==> IsKeywordName(pieces[i].name)
  }

  /** The template text of one piece: braces doubled, placeholders in braces. */
  function Spell(p: Piece): string {
    match p
    case Char(c) => if c == '{' then "{{" else if c == '}' then "}}" else [c]
    case Field(name) => "{" + name + "}"
  }

  function Unparse(pieces: seq<Piece>): string {
    if |pieces| == 0 then [] else Spell(pieces[0]) + Unparse(pieces[1..])
  }

  /** Reading a spelled piece gives the piece back and leaves the rest of the text. */
  lemma NextTokenOfSpelled(p: Piece, rest: string)
    requires p.Field? ==> IsKeywordName(p.name)
    ensures p.Char? ==> NextToken(Spell(p) + rest) == Lit(p.c, rest)
    ensures p.Field? ==> NextToken(Spell(p) + rest) == Fld(p.name, rest)
  {
    var t := Spell(p) + rest;
    match p
    case Char(c) =>
      if c == '{' {
        assert t[2..] == rest;
      } else if c == '}' {
        assert t[2..] == rest;
      } else {
        assert t[1..] == rest;
      }
    case Field(name) =>
      var n := |name|;
      assert name != [] by {
        if name == [] { assert AllDigits(name); }
      }
      assert !IsSpecial(name[0]);
      assert t[1..] == name + "}" + rest;
      var k := IndexOf(t[1..], '}');
      assert t[1..][n] == '}';
      assert k == n;
      assert t[1..k + 1] == name;
      assert t[k + 2..] == rest;
  }

  /** Parsing a spelled template gives back exactly its pieces, with no error. */
  lemma {:induction false} ParseUnparse(pieces: seq<Piece>)
    requires WellFormed(pieces)
    ensures Parse(Unparse(pieces)) == Parsed(pieces, None)
    decreases |pieces|
  {
    if |pieces| > 0 {
      var tail := pieces[1..];
      assert WellFormed(tail) by {
        forall i | 0 <= i < |tail| && tail[i].Field?
          ensures IsKeywordName(tail[i].name)
        {
          assert tail[i] == pieces[i + 1];
        }
      }
      ParseUnparse(tail);
      var t := Unparse(pieces);
      assert t == Spell(pieces[0]) + Unparse(tail);
      NextTokenOfSpelled(pieces[0], Unparse(tail));
      assert pieces == [pieces[0]] + tail;
      match pieces[0]
      case Char(c) =>
        assert NextToken(t) == Lit(c, Unparse(tail));
        assert Parse(t) == Parsed([Char(c)] + tail, None);
      case Field(name) =>
        assert NextToken(t) == Fld(name, Unparse(tail));
        assert Parse(t) == Parsed([Field(name)] + tail, None);
    }
  }

  /** The template property: a spelled template yields its rendering when every
      placeholder is bound, and comes back verbatim when any binding is missing. */
  lemma GenerateFromPieces(pieces: seq<Piece>, fields: map<string, string>)
    requires WellFormed(pieces)
    ensures AllBound(pieces, fields) ==> GenerateComment(Unparse(pieces), fields) == Success(Render(pieces, fields))
    ensures !AllBound(pieces, fields) ==> GenerateComment(Unparse(pieces), fields) == Success(Unparse(pieces))
  {
    ParseUnparse(pieces);
  }

  // ---------------------------------------------------------------------------
  // Literal text and a configured template

  /** The pieces of a text taken literally. */
  function Literal(s: string): (pieces: seq<Piece>)
    ensures |pieces| == |s|
    ensures forall i :: 0 <= i < |s| ==> pieces[i] == Char(s[i])
  {
    seq(|s|, i requires 0 <= i < |s| => Char(s[i]))
  }

  lemma {:induction false} UnparseAppend(a: seq<Piece>, b: seq<Piece>)
    ensures Unparse(a + b) == Unparse(a) + Unparse(b)
    decreases |a|
  {
    if |a| > 0 {
      assert (a + b)[1..] == a[1..] + b;
      UnparseAppend(a[1..], b);
    } else {
      assert a + b == b;
    }
  }

  lemma {:induction false} RenderAppend(a: seq<Piece>, b: seq<Piece>, fields: map<string, string>)
    requires AllBound(a, fields) && AllBound(b, fields)
    ensures AllBound(a + b, fields)
    ensures Render(a + b, fields) == Render(a, fields) + Render(b, fields)
    decreases |a|
  {
    if |a| > 0 {
      assert (a + b)[1..] == a[1..] + b;
      assert AllBound(a[1..], fields) by {
        forall i | 0 <= i < |a| - 1 && a[1..][i].Field?
          ensures a[1..][i].name in fields
        {
          assert a[1..][i] == a[i + 1];
        }
      }
      RenderAppend(a[1..], b, fields);
    } else {
      assert a + b == b;
    }
  }

  /** Brace-free text is its own template. */
  lemma {:induction false} UnparseLiteral(s: string)
    requires '{' !in s && '}' !in s
    ensures Unparse(Literal(s)) == s
    decreases |s|
  {
    if |s| > 0 {
      assert Literal(s)[1..] == Literal(s[1..]);
      UnparseLiteral(s[1..]);
      assert s == [s[0]] + s[1..];
    }
  }

  /** Literal text renders to itself. */
  lemma {:induction false} RenderLiteral(s: string, fields: map<string, string>)
    ensures AllBound(Literal(s), fields)
    ensures Render(Literal(s), fields) == s
    decreases |s|
  {
    if |s| > 0 {
      assert Literal(s)[1..] == Literal(s[1..]);
      RenderLiteral(s[1..], fields);
      assert s == [s[0]] + s[1..];
    }
  }

  /** The pieces of a template with one placeholder between two brace-free texts. */
  function OnePlaceholderPieces(before: string, name: string, after: string): seq<Piece> {
    Literal(before) + [Field(name)] + Literal(after)
  }

  lemma OnePlaceholderWellFormed(before: string, name: string, after: string)
    requires IsKeywordName(name)
    ensures WellFormed(OnePlaceholderPieces(before, name, after))
  {
  }

  lemma OnePlaceholderSpelled(before: string, name: string, after: string)
    requires '{' !in before && '}' !in before && '{' !in after && '}' !in after
    ensures Unparse(OnePlaceholderPieces(before, name, after)) == before + "{" + name + "}" + after
  {
    var field := [Field(name)];
    UnparseLiteral(before);
    UnparseLiteral(after);
    assert Unparse(field) == "{" + name + "}" by {
      assert field[1..] == [];
    }
    UnparseAppend(Literal(before), field);
    UnparseAppend(Literal(before) + field, Literal(after));
  }

  lemma OnePlaceholderRendered(before: string, name: string, after: string, fields: map<string, string>)
    requires name in fields
    ensures AllBound(OnePlaceholderPieces(before, name, after), fields)
    ensures Render(OnePlaceholderPieces(before, name, after), fields) == before + fields[name] + after
  {
    var field := [Field(name)];
    RenderLiteral(before, fields);
    RenderLiteral(after, fields);
    assert AllBound(field, fields);
    assert Render(field, fields) == fields[name] by {
      assert field[1..] == [];
    }
    RenderAppend(Literal(before), field, fields);
    RenderAppend(Literal(before) + field, Literal(after), fields);
  }

  /** A template with one placeholder between two brace-free texts: filled when the
      placeholder is bound, returned as it stands when it is not. */
  lemma OnePlaceholder(before: string, name: string, after: string, fields: map<string, string>)
    requires '{' !in before && '}' !in before && '{' !in after && '}' !in after
    requires IsKeywordName(name)
    ensures var template := before + "{" + name + "}" + after;
            && (name in fields ==> GenerateComment(template, fields) == Success(before + fields[name] + after))
            && (name !in fields ==> GenerateComment(template, fields) == Success(template))
  {
    var pieces := OnePlaceholderPieces(before, name, after);
    OnePlaceholderWellFormed(before, name, after);
    OnePlaceholderSpelled(before, name, after);
    if name in fields {
      OnePlaceholderRendered(before, name, after, fields);
    } else {
      assert pieces[|before|] == Field(name);
    }
    GenerateFromPieces(pieces, fields);
  }

  /** The first configured template, filled from the post title and, without the
      binding, returned as it stands. */
  lemma ConfiguredTemplateExample(title: string)
    ensures var before := "Great post! I found" + " this very interesting" + " because ";
            var template := before + "{post_title}" + ".";
            && GenerateComment(template, map["post_title" := title]) == Success(before + title + ".")
            && GenerateComment(template, map[]) == Success(template)
  {
    // The text is split into short literals only so that the verifier can see it holds
    // no braces; the concatenation is the template at config/settings.py:12.
    var before := "Great post! I found" + " this very interesting" + " because ";
    assert '{' !in before && '}' !in before;
    assert IsKeywordName("post_title") by {
      assert !('0' <= "post_title"[0] <= '9');
    }
    assert before + "{post_title}" + "." == before + "{" + "post_title" + "}" + ".";
    OnePlaceholder(before, "post_title", ".", map["post_title" := title]);
    OnePlaceholder(before, "post_title", ".", map[]);
  }

  /** A ']' that no '[' opened is an ordinary character of a keyword name. */
  lemma ClosingBracketIsOrdinary(value: string)
    ensures GenerateComment("{a]}", map["a]" := value]) == Success(value)
    ensures GenerateComment("{a]}", map[]) == Success("{a]}")
  {
    assert IsKeywordName("a]") by {
      assert !('0' <= "a]"[0] <= '9');
    }
    assert "{a]}" == [] + "{" + "a]" + "}" + [];
    assert value == [] + value + [];
    OnePlaceholder([], "a]", [], map["a]" := value]);
    OnePlaceholder([], "a]", [], map[]);
  }
}
