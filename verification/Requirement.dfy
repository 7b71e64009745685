/** Rock versions and requirements as text: parsing, and that what is written out reads back. */
module Requirements {
  import opened Wrappers
  import opened Widths
  import opened Texts
  import opened Values
  import opened Rocks
  import LuaValues

  // ---------------------------------------------------------------- numbers

  function DigitOf(c: char): Option<nat> {
    if '0' <= c <= '9' then Some(c as int - '0' as int) else None
  }

  /** The value of a run of digits; `None` when something else is among them, or nothing at all. */
  function DigitsValue(text: string): Option<nat> {
    if text == "" then None
    else
      var last := DigitOf(text[|text| - 1]);
      if last.None? then None
      else if |text| == 1 then last
      else
        match DigitsValue(text[..|text| - 1])
        case None => None
        case Some(high) => Some(10 * high + last.value)
  }

  /** An unsigned 64-bit number, as Rust reads one: an optional plus, digits, and no overflow. */
  function ParseU64(text: string): Option<nat> {
    var digits := if text != "" && text[0] == '+' then text[1..] else text;
    var value := DigitsValue(digits);
    if value.Some? && value.value <= U64_MAX then value else None
  }

  lemma {:induction false} DecimalReadsBack(n: nat)
    ensures DigitsValue(LuaValues.Decimal(n)) == Some(n)
    ensures forall c <- LuaValues.Decimal(n) :: DigitOf(c).Some?
  {
    var text := LuaValues.Decimal(n);
    assert DigitOf(LuaValues.DIGIT[n % 10]) == Some(n % 10);
    if n >= 10 {
      DecimalReadsBack(n / 10);
      assert text[..|text| - 1] == LuaValues.Decimal(n / 10);
    }
  }

  lemma NumberReadsBack(n: u64)
    ensures ParseU64(LuaValues.Decimal(n)) == Some(n)
  {
    DecimalReadsBack(n);
    var text := LuaValues.Decimal(n);
    assert text[0] in text && text[0] != '+';
  }

  // ---------------------------------------------------------------- versions

  function PartOf(component: string): Part {
    match ParseU64(component)
    case Some(n) => Number(n)
    case None => Text(component)
  }

  function PartsOf(components: seq<string>): seq<Part> {
    if components == [] then []
    else if components[0] == "" then PartsOf(components[1..])
    else [PartOf(components[0])] + PartsOf(components[1..])
  }

  /** The text before and after the first `-`, if there is one. */
  function SplitOnce(text: string): (string, Option<string>) {
    if text == "" then ("", None)
    else if text[0] == '-' then ("", Some(text[1..]))
    else
      var (before, after) := SplitOnce(text[1..]);
      ([text[0]] + before, after)
  }

  /** Never fails: unrecognised components compare as text. */
  function ParseVersion(raw: string): RockVersion {
    var (version, revision) := SplitOnce(Trim(raw));
    RockVersion(PartsOf(Split(version, '.')), if revision.Some? then ParseU64(revision.value) else None)
  }

  function PartText(part: Part): string {
    match part
    case Number(n) => LuaValues.Decimal(n)
    case Text(text) => text
  }

  function PartTexts(parts: seq<Part>): (r: seq<string>)
    ensures |r| == |parts|
    ensures forall i :: 0 <= i < |parts| ==> r[i] == PartText(parts[i])
  {
    seq(|parts|, i requires 0 <= i < |parts| => PartText(parts[i]))
  }

  function VersionText(v: RockVersion): string {
    Join(PartTexts(v.parts), '.') + match v.revision
                                    case None => ""
                                    case Some(r) => "-" + LuaValues.Decimal(r)
  }

  predicate Letter(c: char) {
    c != '.' && c != '-' && c != ',' && !IsSpace(c)
  }

  /** A component that reads back as itself: letters that are not a number. */
  ghost predicate Writable(part: Part) {
    part.Text? ==> part.text != "" && (forall c <- part.text :: Letter(c)) && ParseU64(part.text).None?
  }

  ghost predicate WritableVersion(v: RockVersion) {
    v.parts != [] && forall part <- v.parts :: Writable(part)
  }

  lemma PartReadsBack(part: Part)
    requires Writable(part)
    ensures PartText(part) != "" && (forall c <- PartText(part) :: Letter(c)) && PartOf(PartText(part)) == part
  {
    match part
    case Number(n) =>
      NumberReadsBack(n);
      DecimalReadsBack(n);
    case Text(_) =>
  }

  lemma {:induction false} PartsReadBack(parts: seq<Part>)
    requires forall part <- parts :: Writable(part)
    ensures PartsOf(PartTexts(parts)) == parts
  {
    if parts != [] {
      assert parts == [parts[0]] + parts[1..] && parts[0] in parts;
      PartReadsBack(parts[0]);
      PartsReadBack(parts[1..]);
      assert PartTexts(parts)[1..] == PartTexts(parts[1..]);
    }
  }

  predicate PieceChar(c: char) {
    c != '-' && c != ',' && !IsSpace(c)
  }

  lemma {:induction false} JoinedParts(parts: seq<Part>)
    requires parts != [] && forall part <- parts :: Writable(part)
    ensures Join(PartTexts(parts), '.') != "" && forall c <- Join(PartTexts(parts), '.') :: PieceChar(c)
  {
    assert parts[0] in parts && forall part <- parts[1..] :: part in parts;
    PartReadsBack(parts[0]);
    if |parts| > 1 {
      JoinedParts(parts[1..]);
      assert PartTexts(parts)[1..] == PartTexts(parts[1..]);
    }
  }

  lemma {:induction false} SplitOnceAt(before: string, after: string)
    requires '-' !in before
    ensures SplitOnce(before) == (before, None) && SplitOnce(before + "-" + after) == (before, Some(after))
  {
    if before == "" {
      assert before + "-" + after == "-" + after && ("-" + after)[1..] == after;
    } else {
      assert before == [before[0]] + before[1..];
      SplitOnceAt(before[1..], after);
      assert (before + "-" + after)[1..] == before[1..] + "-" + after;
    }
  }

  lemma VersionIsTrimmed(v: RockVersion)
    requires WritableVersion(v)
    ensures VersionText(v) != "" && Trimmed(VersionText(v)) && ',' !in VersionText(v)
  {
    JoinedParts(v.parts);
    var joined, text := Join(PartTexts(v.parts), '.'), VersionText(v);
    assert text[0] == joined[0] && joined[0] in joined && joined[|joined| - 1] in joined;
    if v.revision.Some? {
      DecimalReadsBack(v.revision.value);
      var digits := LuaValues.Decimal(v.revision.value);
      assert text[|text| - 1] == digits[|digits| - 1] && digits[|digits| - 1] in digits;
    }
  }

  /** A version written out reads back as itself. */
  lemma VersionReadsBack(v: RockVersion)
    requires WritableVersion(v)
    ensures ParseVersion(VersionText(v)) == v
  {
    var joined := Join(PartTexts(v.parts), '.');
    VersionIsTrimmed(v);
    TrimKeeps(VersionText(v));
    JoinedParts(v.parts);
    assert '-' !in joined;
    forall part <- PartTexts(v.parts) ensures '.' !in part {
      var i :| 0 <= i < |v.parts| && PartTexts(v.parts)[i] == part;
      assert v.parts[i] in v.parts;
      PartReadsBack(v.parts[i]);
    }
    SplitJoin(PartTexts(v.parts), '.');
    PartsReadBack(v.parts);
    match v.revision
    case None =>
      SplitOnceAt(joined, "");
      assert VersionText(v) == joined;
    case Some(r) =>
      SplitOnceAt(joined, LuaValues.Decimal(r));
      assert VersionText(v) == joined + "-" + LuaValues.Decimal(r);
      NumberReadsBack(r);
  }

  // ---------------------------------------------------------------- requirements

  /** The operators in the order they are tried. */
  const TOKENS: seq<(string, Operator)> :=
    [(">=", AtLeast), ("<=", AtMost), ("==", Exactly), ("~=", Not), ("~>", Compatible),
     ("=", Exactly), (">", Above), ("<", Below)]

  ghost predicate FirstToken(piece: string, k: nat)
    requires k < |TOKENS|
  {
    TOKENS[k].0 <= piece && forall i :: 0 <= i < k ==> !(TOKENS[i].0 <= piece)
  }

  lemma LongerFirst()
    ensures forall i, j :: 0 <= i < j < |TOKENS| ==> |TOKENS[j].0| <= |TOKENS[i].0|
    ensures forall i :: 0 <= i < |TOKENS| ==> TOKENS[i].0 != ""
  {
  }

  /**
   * Splits a leading comparison operator off a constraint, defaulting to equality. What is split
   * off is the longest token the piece begins with.
   */
  method SplitOperator(piece: string) returns (operator: Operator, rest: string)
    ensures (operator, rest) == OperatorOf(piece)
    ensures |rest| <= |piece| && piece[|piece| - |rest|..] == rest
    ensures rest != piece ==> (piece[..|piece| - |rest|], operator) in TOKENS
    ensures rest == piece ==> operator == Exactly
    ensures forall k :: 0 <= k < |TOKENS| && TOKENS[k].0 <= piece ==> |TOKENS[k].0| <= |piece| - |rest|
  {
    LongerFirst();
    for k := 0 to |TOKENS|
      invariant forall i :: 0 <= i < k ==> !(TOKENS[i].0 <= piece)
    {
      if TOKENS[k].0 <= piece {
        OperatorFound(piece, k);
        operator, rest := TOKENS[k].1, piece[|TOKENS[k].0|..];
        assert piece[..|piece| - |rest|] == TOKENS[k].0;
        return;
      }
    }
    NoOperator(piece);
    return Exactly, piece;
  }

  /** The longest operator the piece begins with, and what follows it. */
  function OperatorOf(piece: string): (Operator, string) {
    if ">=" <= piece then (AtLeast, piece[2..])
    else if "<=" <= piece then (AtMost, piece[2..])
    else if "==" <= piece then (Exactly, piece[2..])
    else if "~=" <= piece then (Not, piece[2..])
    else if "~>" <= piece then (Compatible, piece[2..])
    else if "=" <= piece then (Exactly, piece[1..])
    else if ">" <= piece then (Above, piece[1..])
    else if "<" <= piece then (Below, piece[1..])
    else (Exactly, piece)
  }

  lemma OperatorFound(piece: string, k: nat)
    requires k < |TOKENS| && FirstToken(piece, k)
    ensures OperatorOf(piece) == (TOKENS[k].1, piece[|TOKENS[k].0|..])
  {
    assert TOKENS[0].0 == ">=" && TOKENS[1].0 == "<=" && TOKENS[2].0 == "==" && TOKENS[3].0 == "~=";
    assert TOKENS[4].0 == "~>" && TOKENS[5].0 == "=" && TOKENS[6].0 == ">" && TOKENS[7].0 == "<";
  }

  lemma NoOperator(piece: string)
    requires forall i :: 0 <= i < |TOKENS| ==> !(TOKENS[i].0 <= piece)
    ensures OperatorOf(piece) == (Exactly, piece)
  {
    assert TOKENS[0].0 == ">=" && TOKENS[1].0 == "<=" && TOKENS[2].0 == "==" && TOKENS[3].0 == "~=";
    assert TOKENS[4].0 == "~>" && TOKENS[5].0 == "=" && TOKENS[6].0 == ">" && TOKENS[7].0 == "<";
  }

  /** One comma-separated piece: nothing, a constraint, or an operator with no version. */
  datatype Piece = Blank | Sound(constraint: Constraint) | Broken

  function PieceOf(text: string): Piece {
    var piece := Trim(text);
    if piece == "" then Blank
    else
      var (operator, rest) := OperatorOf(piece);
      if Trim(rest) == "" then Broken else Sound(Constraint(operator, ParseVersion(Trim(rest))))
  }

  /** The constraints among the first `k` pieces; `None` from the first broken one on. */
  ghost function ConstraintsUpTo(pieces: seq<string>, k: nat): Option<seq<Constraint>>
    requires k <= |pieces|
  {
    if k == 0 then Some([])
    else
      match ConstraintsUpTo(pieces, k - 1)
      case None => None
      case Some(before) =>
        match PieceOf(pieces[k - 1])
        case Blank => Some(before)
        case Sound(constraint) => Some(before + [constraint])
        case Broken => None
  }

  ghost function ParsedAs(raw: string): Option<seq<Constraint>> {
    var trimmed := Trim(raw);
    if trimmed == "" || trimmed == "*" then Some([])
    else
      var pieces := Split(trimmed, ',');
      ConstraintsUpTo(pieces, |pieces|)
  }

  lemma {:induction false} BrokenStays(pieces: seq<string>, k: nat, n: nat)
    requires k <= n <= |pieces| && ConstraintsUpTo(pieces, k).None?
    ensures ConstraintsUpTo(pieces, n).None?
    decreases n
  {
    if k < n {
      BrokenStays(pieces, k, n - 1);
    }
  }

  method ParsePiece(text: string) returns (piece: Piece)
    ensures piece == PieceOf(text)
  {
    var trimmed := Trim(text);
    if trimmed == "" {
      return Blank;
    }
    var operator, rest := SplitOperator(trimmed);
    piece := if Trim(rest) == "" then Broken else Sound(Constraint(operator, ParseVersion(Trim(rest))));
  }

  /** Parses a requirement. An empty one or `*` accepts any version. */
  method Parse(raw: string) returns (constraints: Option<seq<Constraint>>)
    ensures constraints == ParsedAs(raw)
  {
    hide Trim, Split, PieceOf;
    var trimmed := Trim(raw);
    if trimmed == "" || trimmed == "*" {
      return Some([]);
    }
    var pieces, parsed: seq<Constraint> := Split(trimmed, ','), [];
    for k := 0 to |pieces|
      invariant ConstraintsUpTo(pieces, k) == Some(parsed)
    {
      var piece := ParsePiece(pieces[k]);
      match piece
      case Blank =>
      case Sound(constraint) => parsed := parsed + [constraint];
      case Broken =>
        BrokenStays(pieces, k + 1, |pieces|);
        return None;
    }
    constraints := Some(parsed);
  }

  /** Whether a version satisfies every constraint. */
  predicate Accepts(constraints: seq<Constraint>, candidate: RockVersion) {
    forall i :: 0 <= i < |constraints| ==> constraints[i].Matches(candidate)
  }

  type Installation = Option<map<string, RockVersion>>

  /** The tree holds an acceptable version of this rock. */
  ghost predicate RockMet(name: string, raw: string, installed: map<string, RockVersion>) {
    ParsedAs(raw).Some? && name in installed && Accepts(ParsedAs(raw).value, installed[name])
  }

  /** Every rock asked for is there; asking for none needs no tree at all. */
  ghost predicate RocksMet(rocks: map<string, string>, installed: Installation) {
    rocks == map[] || (installed.Some? && forall name <- rocks :: RockMet(name, rocks[name], installed.value))
  }

  /** Checks one plugin's `[rocks]` against what the tree holds. */
  method VerifyRocks(rocks: map<string, string>, installed: Installation) returns (ok: bool)
    ensures ok <==> RocksMet(rocks, installed)
  {
    hide RockMet;
    if rocks == map[] {
      return true;
    }
    if installed.None? {
      return false;
    }
    var names := SortedKeys(rocks.Keys);
    for k := 0 to |names|
      invariant forall i :: 0 <= i < k ==> names[i] in rocks && RockMet(names[i], rocks[names[i]], installed.value)
    {
      var name := names[k];
      assert name in rocks;
      ok := VerifyRock(name, rocks[name], installed.value);
      if !ok {
        return false;
      }
    }
    forall name <- rocks ensures RockMet(name, rocks[name], installed.value) {
      assert name in names;
    }
    ok := true;
  }

  method VerifyRock(name: string, raw: string, installed: map<string, RockVersion>) returns (ok: bool)
    ensures ok <==> RockMet(name, raw, installed)
  {
    var constraints := Parse(raw);
    ok := constraints.Some? && name in installed && Accepts(constraints.value, installed[name]);
  }

  // ---------------------------------------------------------------- written out and read back

  function Token(operator: Operator): string {
    match operator
    case AtLeast => ">="
    case AtMost => "<="
    case Exactly => "=="
    case Not => "~="
    case Compatible => "~>"
    case Above => ">"
    case Below => "<"
  }

  function ConstraintText(c: Constraint): string {
    Token(c.operator) + " " + VersionText(c.version)
  }

  /** The pieces of a requirement, each after the first behind a space. */
  function PieceTexts(cs: seq<Constraint>): (r: seq<string>)
    ensures |r| == |cs|
    ensures forall i :: 0 <= i < |cs| ==> r[i] == (if i == 0 then "" else " ") + ConstraintText(cs[i])
  {
    seq(|cs|, i requires 0 <= i < |cs| => (if i == 0 then "" else " ") + ConstraintText(cs[i]))
  }

  /** `">= 1.0, < 2.0"`, or `"*"` for no constraint at all. */
  function RequirementText(cs: seq<Constraint>): string {
    if cs == [] then "*" else Join(PieceTexts(cs), ',')
  }

  lemma ConstraintIsTrimmed(c: Constraint)
    requires WritableVersion(c.version)
    ensures var text := ConstraintText(c);
      |text| >= 3 && Trimmed(text) && ',' !in text && !IsSpace(text[0]) && !IsSpace(text[|text| - 1])
  {
    VersionIsTrimmed(c.version);
    var version, text := VersionText(c.version), ConstraintText(c);
    assert text[|text| - 1] == version[|version| - 1];
    assert text[0] == Token(c.operator)[0];
    assert ',' !in Token(c.operator);
  }

  lemma PieceReadsBack(c: Constraint, text: string)
    requires WritableVersion(c.version) && (text == "" + ConstraintText(c) || text == " " + ConstraintText(c))
    ensures PieceOf(text) == Sound(c)
  {
    hide Trim, OperatorOf, ParseVersion, VersionText, WritableVersion, Trimmed, Token;
    var piece, rest := ConstraintText(c), " " + VersionText(c.version);
    ConstraintIsTrimmed(c);
    TrimKeeps(piece);
    VersionIsTrimmed(c.version);
    TrimKeeps(VersionText(c.version));
    VersionReadsBack(c.version);
    TokenFound(c.operator, rest);
    assert piece == Token(c.operator) + rest && "" + piece == piece;
  }

  lemma TokenFound(operator: Operator, rest: string)
    requires rest != "" && rest[0] == ' '
    ensures OperatorOf(Token(operator) + rest) == (operator, rest)
  {
    var token := Token(operator);
    var piece := token + rest;
    assert piece[|token|..] == rest && piece[|token|] == ' ';
    assert piece[0] == token[0] && (|token| == 2 ==> piece[1] == token[1]) && (|token| == 1 ==> piece[1] == ' ');
  }

  lemma {:induction false} PiecesReadBack(cs: seq<Constraint>, k: nat)
    requires k <= |cs| && forall c <- cs :: WritableVersion(c.version)
    ensures ConstraintsUpTo(PieceTexts(cs), k) == Some(cs[..k])
  {
    hide PieceOf, WritableVersion, PieceTexts, ConstraintText;
    if k > 0 {
      PiecesReadBack(cs, k - 1);
      assert cs[k - 1] in cs;
      PieceReadsBack(cs[k - 1], PieceTexts(cs)[k - 1]);
      assert cs[..k] == cs[..k - 1] + [cs[k - 1]];
    }
  }

  lemma {:induction false} JoinEnds(parts: seq<string>, sep: char)
    requires parts != [] && forall i :: 0 <= i < |parts| ==> parts[i] != ""
    ensures Join(parts, sep) != "" && Join(parts, sep)[0] == parts[0][0]
    ensures var text, last := Join(parts, sep), parts[|parts| - 1]; text[|text| - 1] == last[|last| - 1]
  {
    if |parts| > 1 {
      JoinEnds(parts[1..], sep);
    }
  }

  lemma ConstraintsReadBack(cs: seq<Constraint>)
    requires cs != [] && forall c <- cs :: WritableVersion(c.version)
    ensures ParsedAs(RequirementText(cs)) == Some(cs)
  {
    hide *;
    RequirementIsTrimmed(cs);
    TrimKeeps(RequirementText(cs));
    PiecesSplit(cs);
    PiecesReadBack(cs, |cs|);
    assert cs[..|cs|] == cs;
    ParsedFromPieces(RequirementText(cs), PieceTexts(cs));
  }

  /** A requirement written out reads back as the same constraints, in the same order. */
  lemma RequirementReadsBack(cs: seq<Constraint>)
    requires forall c <- cs :: WritableVersion(c.version)
    ensures ParsedAs(RequirementText(cs)) == Some(cs)
  {
    hide ParsedAs, WritableVersion;
    if cs == [] {
      StarReadsBack();
    } else {
      ConstraintsReadBack(cs);
    }
  }

  lemma StarReadsBack()
    ensures ParsedAs("*") == Some([])
  {
    TrimKeeps("*");
  }

  lemma ParsedFromPieces(raw: string, pieces: seq<string>)
    requires Trim(raw) == raw && raw != "" && raw != "*" && Split(raw, ',') == pieces
    ensures ParsedAs(raw) == ConstraintsUpTo(pieces, |pieces|)
  {
    hide Trim, Split, ConstraintsUpTo;
  }

  lemma PieceEnds(cs: seq<Constraint>, i: nat)
    requires i < |cs| && forall c <- cs :: WritableVersion(c.version)
    ensures var piece := PieceTexts(cs)[i];
      && |piece| >= 3 && ',' !in piece && !IsSpace(piece[|piece| - 1])
      && (i == 0 ==> !IsSpace(piece[0]) && piece[0] != '*')
  {
    assert cs[i] in cs;
    ConstraintIsTrimmed(cs[i]);
    hide VersionText, WritableVersion;
    var text, piece := ConstraintText(cs[i]), PieceTexts(cs)[i];
    assert piece[|piece| - 1] == text[|text| - 1];
    assert text[0] == Token(cs[i].operator)[0];
  }

  lemma RequirementIsTrimmed(cs: seq<Constraint>)
    requires cs != [] && forall c <- cs :: WritableVersion(c.version)
    ensures var text := RequirementText(cs); text != "" && text != "*" && Trimmed(text)
  {
    hide Join, PieceTexts, WritableVersion, ConstraintText, IsSpace;
    var pieces := PieceTexts(cs);
    forall i | 0 <= i < |pieces| ensures pieces[i] != "" {
      PieceEnds(cs, i);
    }
    PieceEnds(cs, 0);
    PieceEnds(cs, |cs| - 1);
    JoinEnds(pieces, ',');
  }

  lemma PiecesSplit(cs: seq<Constraint>)
    requires cs != [] && forall c <- cs :: WritableVersion(c.version)
    ensures Split(RequirementText(cs), ',') == PieceTexts(cs)
  {
    var pieces := PieceTexts(cs);
    forall part <- pieces ensures ',' !in part {
      var i :| 0 <= i < |cs| && pieces[i] == part;
      PieceEnds(cs, i);
    }
    SplitJoin(pieces, ',');
  }
}
