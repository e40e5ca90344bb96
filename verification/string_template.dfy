/**
 * Python's `string.Template(text).substitute(**symbols)`, the renderer
 * `instance_template` uses.
 *
 * The template is scanned left to right for `$`; at each one the first of
 * these that applies is taken:
 *  - `$$`, which renders as a single `$`;
 *  - `$id`, a named placeholder taking the longest identifier after the `$`;
 *  - `${id}`, a braced placeholder;
 *  - anything else, which is an invalid placeholder.
 * An identifier is `[_A-Za-z][_A-Za-z0-9]*` (ASCII only). A placeholder whose
 * key is not in the symbol table is an error too. The first offending `$`,
 * left to right, decides which error is reported.
 */
module StringTemplate {
  import opened Results
  import opened Text

  /** The keyword arguments of `substitute`, values already rendered as text. */
  type Symbols = map<string, string>

  datatype TemplateError =
    | InvalidPlaceholder(at: nat) // `ValueError`; `at` is the index of the offending `$`
    | MissingKey(key: string)     // `KeyError`

  predicate IdStart(c: char) {
    c == '_' || 'a' <= c <= 'z' || 'A' <= c <= 'Z'
  }

  predicate IdChar(c: char) {
    IdStart(c) || '0' <= c <= '9'
  }

  predicate IsIdentifier(s: string) {
    |s| > 0 && IdStart(s[0]) && forall i :: 0 <= i < |s| ==> IdChar(s[i])
  }

  /** `s` contains no `$`, so it holds no placeholder. */
  predicate NoDollar(s: string) {
    forall i :: 0 <= i < |s| ==> s[i] != '$'
  }

  /** The number of identifier characters in `t` from index `j` on, up to the first other one. */
  function IdentifierRun(t: string, j: nat): (n: nat)
    requires j <= |t|
    decreases |t| - j
    ensures j + n <= |t|
    ensures forall k :: j <= k < j + n ==> IdChar(t[k])
    ensures j + n < |t| ==> !IdChar(t[j + n])
  {
    if j == |t| || !IdChar(t[j]) then 0 else 1 + IdentifierRun(t, j + 1)
  }

  /** Puts `prefix` in front of a successful rendering; errors pass through. */
  function Emit(prefix: string, rest: Result<string, TemplateError>): Result<string, TemplateError> {
    match rest
    case Ok(text) => Ok(prefix + text)
    case Err(e) => Err(e)
  }

  /** What a `$` introduces. `width` counts the characters after the `$`. */
  datatype Directive = Escaped | Placeholder(key: string, width: nat) | Invalid

  /**
   * Reads the directive of the `$` just before index `j` of `t`, trying `$`,
   * then a named, then a braced placeholder.
   */
  function ReadDirective(t: string, j: nat): (d: Directive)
    requires j <= |t|
    ensures d.Escaped? <==> j < |t| && t[j] == '$'
    ensures d.Placeholder? ==> IsIdentifier(d.key) && 0 < d.width && j + d.width <= |t|
  {
    if j == |t| then Invalid
    else if t[j] == '$' then Escaped
    else if IdStart(t[j]) then
      var n := IdentifierRun(t, j);
      Placeholder(t[j..j + n], n)
    else if t[j] == '{' && j + 1 < |t| && IdStart(t[j + 1]) then
      var n := IdentifierRun(t, j + 1);
      if j + 1 + n < |t| && t[j + 1 + n] == '}' then Placeholder(t[j + 1..j + 1 + n], n + 2)
      else Invalid
    else Invalid
  }

  /** Renders `t` from index `i` on. */
  function Scan(t: string, symbols: Symbols, i: nat): (r: Result<string, TemplateError>)
    requires i <= |t|
    decreases |t| - i
    ensures r.Err? && r.error.InvalidPlaceholder? ==> i <= r.error.at < |t| && t[r.error.at] == '$'
    ensures r.Err? && r.error.MissingKey? ==> IsIdentifier(r.error.key) && r.error.key !in symbols
  {
    if i == |t| then Ok("")
    else if t[i] != '$' then Emit([t[i]], Scan(t, symbols, i + 1))
    else
      match ReadDirective(t, i + 1)
      case Invalid => Err(InvalidPlaceholder(i))
      case Escaped => Emit("$", Scan(t, symbols, i + 2))
      case Placeholder(key, width) =>
        if key !in symbols then Err(MissingKey(key))
        else Emit(symbols[key], Scan(t, symbols, i + 1 + width))
  }

  /**
   * `Template(template).substitute(**symbols)`. An invalid placeholder is
   * reported at a `$` of the template, and a missing key names an
   * identifier the table lacks.
   */
  function Substitute(template: string, symbols: Symbols): (r: Result<string, TemplateError>)
    ensures r.Err? && r.error.InvalidPlaceholder? ==>
              r.error.at < |template| && template[r.error.at] == '$'
    ensures r.Err? && r.error.MissingKey? ==>
              IsIdentifier(r.error.key) && r.error.key !in symbols
  {
    Scan(template, symbols, 0)
  }

  // ---------------------------------------------------------------------
  // The rules, one lemma each, for text found at index `i` of a template.
  // ---------------------------------------------------------------------

  /** Text found at `i` splits where its parts meet. */
  lemma AtConcat(t: string, i: nat, a: string, b: string)
    requires OccursAt(t, a + b, i)
    ensures OccursAt(t, a, i) && OccursAt(t, b, i + |a|)
  {
    assert t[i..i + |a|] == (a + b)[..|a|] == a;
    assert t[i + |a|..i + |a| + |b|] == (a + b)[|a|..] == b;
  }

  /** A suffix of `t` made of two parts holds the first at `i` and the second after it. */
  lemma SuffixConcat(t: string, i: nat, a: string, b: string)
    requires i <= |t| && t[i..] == a + b
    ensures OccursAt(t, a, i) && i + |a| <= |t| && t[i + |a|..] == b
  {
    assert t[i..i + |a|] == (a + b)[..|a|] == a;
    assert t[i + |a|..] == (a + b)[|a|..] == b;
  }

  /** An identifier at `j` that the next character does not continue is read whole. */
  lemma {:induction false} RunOfIdentifier(t: string, j: nat, name: string)
    requires OccursAt(t, name, j)
    requires forall k :: 0 <= k < |name| ==> IdChar(name[k])
    requires j + |name| == |t| || !IdChar(t[j + |name|])
    ensures IdentifierRun(t, j) == |name|
    decreases |name|
  {
    if |name| > 0 {
      assert t[j] == name[0];
      assert t[j + 1..j + 1 + |name[1..]|] == name[1..];
      RunOfIdentifier(t, j + 1, name[1..]);
    }
  }

  /** `$$` renders as one `$`. */
  lemma EscapedDollar(t: string, symbols: Symbols, i: nat)
    requires OccursAt(t, "$$", i)
    ensures Scan(t, symbols, i) == Emit("$", Scan(t, symbols, i + 2))
  {
    assert t[i] == '$' && t[i + 1] == '$';
  }

  /**
   * `$name` renders as `symbols[name]`, or fails naming `name`, when the
   * character after it does not continue the identifier.
   */
  lemma NamedPlaceholder(t: string, symbols: Symbols, i: nat, name: string)
    requires OccursAt(t, "$" + name, i) && IsIdentifier(name)
    requires i + 1 + |name| == |t| || !IdChar(t[i + 1 + |name|])
    ensures Scan(t, symbols, i) ==
              if name in symbols then Emit(symbols[name], Scan(t, symbols, i + 1 + |name|))
              else Err(MissingKey(name))
  {
    assert t[i] == '$';
    assert t[i + 1..i + 1 + |name|] == ("$" + name)[1..] == name;
    RunOfIdentifier(t, i + 1, name);
    assert ReadDirective(t, i + 1) == Placeholder(name, |name|);
  }

  /** `${name}` renders as `symbols[name]`, or fails naming `name`. */
  lemma BracedPlaceholder(t: string, symbols: Symbols, i: nat, name: string)
    requires OccursAt(t, "${" + name + "}", i) && IsIdentifier(name)
    ensures Scan(t, symbols, i) ==
              if name in symbols then Emit(symbols[name], Scan(t, symbols, i + 3 + |name|))
              else Err(MissingKey(name))
  {
    AtConcat(t, i, "${" + name, "}");
    AtConcat(t, i, "${", name);
    assert t[i] == '$';
    ReadBraced(t, i + 1, name);
  }

  /** A brace, an identifier and a closing brace at `j` read as a braced placeholder. */
  lemma ReadBraced(t: string, j: nat, name: string)
    requires j + 2 + |name| <= |t| && IsIdentifier(name)
    requires t[j] == '{' && OccursAt(t, name, j + 1) && t[j + 1 + |name|] == '}'
    ensures ReadDirective(t, j) == Placeholder(name, |name| + 2)
  {
    assert t[j + 1] == name[0];
    RunOfIdentifier(t, j + 1, name);
  }

  /** At `j` stands an identifier enclosed in braces. */
  predicate ClosedBrace(t: string, j: nat) {
    && j + 1 < |t| && t[j] == '{' && IdStart(t[j + 1])
    && j + 1 + IdentifierRun(t, j + 1) < |t|
    && t[j + 1 + IdentifierRun(t, j + 1)] == '}'
  }

  /** What follows a `$` at `j` makes it an escape or a placeholder. */
  predicate StartsDirective(t: string, j: nat) {
    j < |t| && (t[j] == '$' || IdStart(t[j]) || ClosedBrace(t, j))
  }

  /**
   * A `$` is an invalid placeholder, reported at its own index, exactly when
   * it is the last character or the character after it neither is a `$`,
   * nor starts an identifier, nor opens a brace that encloses one.
   */
  lemma InvalidDollar(t: string, symbols: Symbols, i: nat)
    requires i < |t| && t[i] == '$'
    ensures Scan(t, symbols, i) == Err(InvalidPlaceholder(i)) <==> !StartsDirective(t, i + 1)
  {
    assert ReadDirective(t, i + 1).Invalid? <==> !StartsDirective(t, i + 1);
  }

  /** A `$`-free literal renders to itself in front of whatever follows it. */
  lemma {:induction false} LiteralText(t: string, symbols: Symbols, i: nat, text: string)
    requires OccursAt(t, text, i) && NoDollar(text)
    ensures Scan(t, symbols, i) == Emit(text, Scan(t, symbols, i + |text|))
    decreases |text|
  {
    if |text| == 0 {
      match Scan(t, symbols, i)
      case Ok(s) => assert text + s == s;
      case Err(_) =>
    } else {
      assert t[i] == text[0];
      assert t[i + 1..i + 1 + |text[1..]|] == text[1..];
      LiteralText(t, symbols, i + 1, text[1..]);
      match Scan(t, symbols, i + |text|)
      case Ok(s) => assert [t[i]] + (text[1..] + s) == text + s;
      case Err(_) =>
    }
  }

  /** Text without `$` renders to itself, whatever the symbol table. */
  lemma SubstitutePlainText(template: string, symbols: Symbols)
    requires NoDollar(template)
    ensures Substitute(template, symbols) == Ok(template)
  {
    LiteralText(template, symbols, 0, template);
    assert template + "" == template;
  }

  // ---------------------------------------------------------------------
  // Reference semantics: a template assembled from pieces, and its meaning.
  // ---------------------------------------------------------------------

  /** One piece of a template: literal text, an escaped dollar, or a placeholder. */
  datatype Piece = Literal(text: string) | Dollar | Slot(name: string)

  predicate WellFormedPiece(p: Piece) {
    match p
    case Literal(text) => NoDollar(text)
    case Dollar => true
    case Slot(name) => IsIdentifier(name)
  }

  predicate AllWellFormed(pieces: seq<Piece>)
    decreases |pieces|
  {
    |pieces| == 0 || (WellFormedPiece(pieces[0]) && AllWellFormed(pieces[1..]))
  }

  /** The template text of one piece; placeholders use the braced form. */
  function PieceText(p: Piece): string {
    match p
    case Literal(text) => text
    case Dollar => "$$"
    case Slot(name) => "${" + name + "}"
  }

  /** The template text of a sequence of pieces. */
  function Unparse(pieces: seq<Piece>): string
    decreases |pieces|
  {
    if |pieces| == 0 then "" else PieceText(pieces[0]) + Unparse(pieces[1..])
  }

  /** The meaning of one piece in front of the meaning of the pieces after it. */
  function Meaning(p: Piece, symbols: Symbols, tail: Result<string, TemplateError>): Result<string, TemplateError> {
    match p
    case Literal(text) => Emit(text, tail)
    case Dollar => Emit("$", tail)
    case Slot(name) => if name in symbols then Emit(symbols[name], tail) else Err(MissingKey(name))
  }

  /**
   * What the pieces mean: literals stand for themselves, an escaped dollar
   * for `$`, a slot for its symbol; the first slot without a symbol is a
   * missing key.
   */
  function Expand(pieces: seq<Piece>, symbols: Symbols): Result<string, TemplateError>
    decreases |pieces|
  {
    if |pieces| == 0 then Ok("") else Meaning(pieces[0], symbols, Expand(pieces[1..], symbols))
  }

  lemma UnparseCons(p: Piece, tail: seq<Piece>)
    ensures Unparse([p] + tail) == PieceText(p) + Unparse(tail)
  {
    assert ([p] + tail)[1..] == tail;
  }

  lemma ExpandCons(p: Piece, tail: seq<Piece>, symbols: Symbols)
    ensures Expand([p] + tail, symbols) == Meaning(p, symbols, Expand(tail, symbols))
  {
    assert ([p] + tail)[1..] == tail;
  }

  /** A well-formed piece found at index `i` renders to its meaning. */
  lemma ScanPiece(t: string, symbols: Symbols, i: nat, p: Piece)
    requires OccursAt(t, PieceText(p), i) && WellFormedPiece(p)
    ensures Scan(t, symbols, i) == Meaning(p, symbols, Scan(t, symbols, i + |PieceText(p)|))
  {
    match p
    case Literal(text) => LiteralText(t, symbols, i, text);
    case Dollar => EscapedDollar(t, symbols, i);
    case Slot(name) => BracedPlaceholder(t, symbols, i, name);
  }

  /** One piece in front of a tail whose rendering is already known. */
  lemma UnparseStep(t: string, symbols: Symbols, i: nat, p: Piece, tail: seq<Piece>)
    requires OccursAt(t, PieceText(p), i) && WellFormedPiece(p)
    requires Scan(t, symbols, i + |PieceText(p)|) == Expand(tail, symbols)
    ensures Scan(t, symbols, i) == Expand([p] + tail, symbols)
  {
    ScanPiece(t, symbols, i, p);
    ExpandCons(p, tail, symbols);
  }

  lemma {:induction false} ScanUnparse(t: string, symbols: Symbols, i: nat, pieces: seq<Piece>)
    requires i <= |t| && t[i..] == Unparse(pieces)
    requires AllWellFormed(pieces)
    ensures Scan(t, symbols, i) == Expand(pieces, symbols)
    decreases |pieces|
  {
    if |pieces| > 0 {
      var p, tail := pieces[0], pieces[1..];
      assert pieces == [p] + tail;
      SuffixConcat(t, i, PieceText(p), Unparse(tail));
      ScanUnparse(t, symbols, i + |PieceText(p)|, tail);
      UnparseStep(t, symbols, i, p, tail);
    } else {
      assert |t[i..]| == 0;
    }
  }


  /**
   * Substitution agrees with the reference meaning: a template built from
   * well-formed pieces renders to their expansion, and fails with the first
   * missing key exactly when the expansion does.
   */
  lemma SubstituteMatchesExpand(pieces: seq<Piece>, symbols: Symbols)
    requires AllWellFormed(pieces)
    ensures Substitute(Unparse(pieces), symbols) == Expand(pieces, symbols)
  {
    var t := Unparse(pieces);
    assert t[0..] == t;
    ScanUnparse(t, symbols, 0, pieces);
  }

  /** Doubles every `$`, so that the text survives substitution unchanged. */
  function Escape(s: string): string
    decreases |s|
  {
    if |s| == 0 then "" else (if s[0] == '$' then "$$" else [s[0]]) + Escape(s[1..])
  }

  lemma {:induction false} ScanEscape(t: string, symbols: Symbols, i: nat, s: string)
    requires i <= |t| && t[i..] == Escape(s)
    ensures Scan(t, symbols, i) == Ok(s)
    decreases |s|
  {
    if |s| > 0 {
      var head := if s[0] == '$' then "$$" else [s[0]];
      SuffixConcat(t, i, head, Escape(s[1..]));
      ScanEscape(t, symbols, i + |head|, s[1..]);
      if s[0] == '$' {
        EscapedDollar(t, symbols, i);
      } else {
        assert t[i] == s[0];
      }
      assert [s[0]] + s[1..] == s;
    } else {
      assert i == |t|;
    }
  }

  /**
   * Every `$$` renders as `$` and nothing else changes: escaping any text
   * and substituting gives the text back, whatever the symbol table.
   */
  lemma SubstituteEscapeRoundTrip(s: string, symbols: Symbols)
    ensures Substitute(Escape(s), symbols) == Ok(s)
  {
    var t := Escape(s);
    assert t[0..] == t;
    ScanEscape(t, symbols, 0, s);
  }

  /**
   * `$id` takes the longest identifier: `$ab` asks for `ab`, never for `a`,
   * and a hyphen ends the identifier, as in `$a-b`.
   */
  lemma NamedPlaceholderIsLongest(symbols: Symbols)
    requires "ab" !in symbols
    ensures Substitute("$ab", symbols) == Err(MissingKey("ab"))
    ensures Substitute("$a-b", map["a" := "x"]) == Ok("x-b")
  {
    assert OccursAt("$ab", "$" + "ab", 0);
    NamedPlaceholder("$ab", symbols, 0, "ab");
    var t, m := "$a-b", map["a" := "x"];
    assert OccursAt(t, "$" + "a", 0);
    NamedPlaceholder(t, m, 0, "a");
    assert OccursAt(t, "-b", 2);
    LiteralText(t, m, 2, "-b");
    assert "-b" + "" == "-b";
    assert "x" + "-b" == "x-b";
  }

  /**
   * A `$` at the end of the template, before a digit, or before a brace that
   * does not enclose an identifier starts no placeholder; the error gives
   * the index of that `$`.
   */
  lemma InvalidPlaceholders(symbols: Symbols)
    ensures Substitute("5$", symbols) == Err(InvalidPlaceholder(1))
    ensures Substitute("$1", symbols) == Err(InvalidPlaceholder(0))
    ensures Substitute("${a", symbols) == Err(InvalidPlaceholder(0))
    ensures Substitute("${}", symbols) == Err(InvalidPlaceholder(0))
  {
  }

}
