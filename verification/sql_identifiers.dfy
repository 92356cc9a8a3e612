/** Quoting of SQL identifiers in CREATE PUBLICATION, against a lexer for delimited identifiers
    (PostgreSQL manual, section 4.1.1: a quote inside a delimited identifier is written twice). */
module SqlIdentifiers {
  import opened BulkData

  /** `strings.ReplaceAll` of each double quote by two. */
  function DoubleQuotes(name: string): string {
    if name == "" then ""
    else (if name[0] == '\"' then "\"\"" else [name[0]]) + DoubleQuotes(name[1..])
  }

  /** `strings.Split` at dots: always at least one part. */
  function SplitDots(name: string): (parts: seq<string>)
    ensures parts != []
  {
    if name == "" then [""]
    else
      var rest := SplitDots(name[1..]);
      if name[0] == '.' then [""] + rest else [[name[0]] + rest[0]] + rest[1..]
  }

  /** `strings.Join` */
  function Join(parts: seq<string>, separator: string): string {
    if parts == [] then ""
    else if |parts| == 1 then parts[0]
    else parts[0] + separator + Join(parts[1..], separator)
  }

  /** `quoteIdent` */
  function QuoteIdent(name: string): string {
    "\"" + DoubleQuotes(name) + "\""
  }

  function QuoteEach(parts: seq<string>): (quoted: seq<string>)
    ensures |quoted| == |parts|
    ensures forall i :: 0 <= i < |parts| ==> quoted[i] == QuoteIdent(parts[i])
  {
    if parts == [] then [] else [QuoteIdent(parts[0])] + QuoteEach(parts[1..])
  }

  function Qualified(name: string): string {
    Join(QuoteEach(SplitDots(name)), ".")
  }

  function QualifiedEach(names: seq<string>): (quoted: seq<string>)
    ensures |quoted| == |names|
    ensures forall i :: 0 <= i < |names| ==> quoted[i] == Qualified(names[i])
  {
    if names == [] then [] else [Qualified(names[0])] + QualifiedEach(names[1..])
  }

  /** `quoteQualifiedIdent` */
  method QuoteQualifiedIdent(name: string) returns (r: string)
    ensures r == Qualified(name)
  {
    var parts := SplitDots(name);
    var quoted := new string[|parts|];
    for i := 0 to |parts|
      invariant forall k :: 0 <= k < i ==> quoted[k] == QuoteIdent(parts[k])
    {
      quoted[i] := QuoteIdent(parts[i]);
    }
    assert quoted[..] == QuoteEach(parts);
    return Join(quoted[..], ".");
  }

  /** `quoteIdents` */
  method QuoteIdents(names: seq<string>) returns (r: seq<string>)
    ensures r == QualifiedEach(names)
  {
    var quoted := new string[|names|];
    for i := 0 to |names|
      invariant forall k :: 0 <= k < i ==> quoted[k] == Qualified(names[k])
    {
      quoted[i] := QuoteQualifiedIdent(names[i]);
    }
    return quoted[..];
  }

  const CREATE_PUBLICATION := "CREATE PUBLICATION "
  const FOR_TABLE := " FOR TABLE "

  function Statement(pubName: string, tables: seq<string>): string {
    CREATE_PUBLICATION + (QuoteIdent(pubName) + (FOR_TABLE + Join(QualifiedEach(tables), ", ")))
  }

  /** The statement that `EnsurePublication` sends. */
  method PublicationStatement(pubName: string, tables: seq<string>) returns (sql: string)
    ensures sql == Statement(pubName, tables)
  {
    var quoted := QuoteIdents(tables);
    return CREATE_PUBLICATION + (QuoteIdent(pubName) + (FOR_TABLE + Join(quoted, ", ")));
  }

  // ---- The lexer

  datatype Lexed<T> = Lexed(value: T, rest: string)

  /** A delimited identifier after its opening quote. */
  function LexQuoted(s: string): Option<Lexed<string>> {
    if s == "" then None
    else if s[0] == '\"' then
      if |s| > 1 && s[1] == '\"' then Extend('\"', LexQuoted(s[2..])) else Some(Lexed("", s[1..]))
    else Extend(s[0], LexQuoted(s[1..]))
  }

  function Extend(c: char, l: Option<Lexed<string>>): Option<Lexed<string>> {
    if l.None? then None else Some(Lexed([c] + l.value.value, l.value.rest))
  }

  function LexIdent(s: string): (r: Option<Lexed<string>>)
  {
    if s != "" && s[0] == '\"' then LexQuoted(s[1..]) else None
  }

  lemma {:induction false} LexQuotedShrinks(s: string)
    ensures LexQuoted(s).Some? ==> |LexQuoted(s).value.rest| < |s|
  {
    if s != "" {
      if s[0] != '\"' {
        LexQuotedShrinks(s[1..]);
      } else if |s| > 1 && s[1] == '\"' {
        LexQuotedShrinks(s[2..]);
      }
    }
  }

  /** Identifiers separated by dots. */
  function LexQualified(s: string): Option<Lexed<seq<string>>>
    decreases |s|
  {
    match LexIdent(s)
    case None => None
    case Some(first) =>
      if first.rest != "" && first.rest[0] == '.' then
        LexQuotedShrinks(s[1..]);
        match LexQualified(first.rest[1..])
        case None => None
        case Some(more) => Some(Lexed([first.value] + more.value, more.rest))
      else Some(Lexed([first.value], first.rest))
  }

  lemma {:induction false} LexQualifiedShrinks(s: string)
    ensures LexQualified(s).Some? ==> |LexQualified(s).value.rest| < |s|
    decreases |s|
  {
    if LexIdent(s).Some? {
      LexQuotedShrinks(s[1..]);
      var first := LexIdent(s).value;
      if first.rest != "" && first.rest[0] == '.' {
        LexQualifiedShrinks(first.rest[1..]);
      }
    }
  }

  /** Qualified names separated by a comma and a space, up to the end of the text. */
  function LexNames(s: string): Option<seq<seq<string>>>
    decreases |s|
  {
    match LexQualified(s)
    case None => None
    case Some(first) =>
      if first.rest == "" then Some([first.value])
      else if ", " <= first.rest then
        LexQualifiedShrinks(s);
        match LexNames(first.rest[2..])
        case None => None
        case Some(more) => Some([first.value] + more)
      else None
  }

  function LexList(s: string): Option<seq<seq<string>>> {
    if s == "" then Some([]) else LexNames(s)
  }

  datatype Publication = Publication(name: string, tables: seq<seq<string>>)

  /** What follows the keyword, and None if the text does not begin with it. */
  function After(keyword: string, text: string): Option<string> {
    if keyword <= text then Some(text[|keyword|..]) else None
  }

  /** Reads the statement by its keywords; None for any other statement. */
  function LexStatement(sql: string): Option<Publication> {
    match After("CREATE PUBLICATION ", sql)
    case None => None
    case Some(s0) =>
      match LexIdent(s0)
      case None => None
      case Some(name) =>
        match After(" FOR TABLE ", name.rest)
        case None => None
        case Some(s1) =>
          match LexList(s1)
          case None => None
          case Some(tables) => Some(Publication(name.value, tables))
  }

  // ---- Round trip

  predicate NotBefore(c: char, rest: string) {
    rest == "" || rest[0] != c
  }

  lemma {:induction false} LexQuotedInverts(name: string, rest: string)
    requires NotBefore('\"', rest)
    ensures LexQuoted(DoubleQuotes(name) + "\"" + rest) == Some(Lexed(name, rest))
  {
    var text := DoubleQuotes(name) + "\"" + rest;
    if name == "" {
      assert text[1..] == rest;
    } else {
      var more := DoubleQuotes(name[1..]) + "\"" + rest;
      LexQuotedInverts(name[1..], rest);
      assert name == [name[0]] + name[1..];
      if name[0] == '\"' {
        assert text[2..] == more && text[0] == text[1] == '\"';
      } else {
        assert text[1..] == more && text[0] == name[0];
      }
    }
  }

  lemma LexIdentInverts(name: string, rest: string)
    requires NotBefore('\"', rest)
    ensures LexIdent(QuoteIdent(name) + rest) == Some(Lexed(name, rest))
  {
    assert (QuoteIdent(name) + rest)[1..] == DoubleQuotes(name) + "\"" + rest;
    LexQuotedInverts(name, rest);
  }

  lemma {:induction false} LexQualifiedInverts(parts: seq<string>, rest: string)
    requires parts != [] && NotBefore('\"', rest) && NotBefore('.', rest)
    ensures LexQualified(Join(QuoteEach(parts), ".") + rest) == Some(Lexed(parts, rest))
    decreases |parts|
  {
    var quoted := QuoteEach(parts);
    if |parts| == 1 {
      LexIdentInverts(parts[0], rest);
      assert parts == [parts[0]];
    } else {
      var more := Join(QuoteEach(parts[1..]), ".") + rest;
      assert quoted[1..] == QuoteEach(parts[1..]);
      assert Join(quoted, ".") + rest == QuoteIdent(parts[0]) + ("." + more);
      LexQualifiedInverts(parts[1..], rest);
      LexFirstPart(parts[0], more);
      assert parts == [parts[0]] + parts[1..];
    }
  }

  lemma LexFirstPart(part: string, more: string)
    ensures LexQualified(QuoteIdent(part) + ("." + more)) ==
            match LexQualified(more)
            case None => None
            case Some(l) => Some(Lexed([part] + l.value, l.rest))
  {
    LexIdentInverts(part, "." + more);
    assert ("." + more)[1..] == more;
  }

  function SplitEach(names: seq<string>): (r: seq<seq<string>>)
    ensures |r| == |names| && forall i :: 0 <= i < |names| ==> r[i] == SplitDots(names[i])
  {
    if names == [] then [] else [SplitDots(names[0])] + SplitEach(names[1..])
  }

  lemma {:induction false} LexNamesInverts(names: seq<string>)
    requires names != []
    ensures LexNames(Join(QualifiedEach(names), ", ")) == Some(SplitEach(names))
    decreases |names|
  {
    var quoted := QualifiedEach(names);
    if |names| == 1 {
      assert Join(quoted, ", ") == Qualified(names[0]) + "";
      LexQualifiedInverts(SplitDots(names[0]), "");
      assert SplitEach(names) == [SplitDots(names[0])];
    } else {
      var more := Join(QualifiedEach(names[1..]), ", ");
      assert quoted[1..] == QualifiedEach(names[1..]);
      assert Join(quoted, ", ") == Qualified(names[0]) + (", " + more);
      LexQualifiedInverts(SplitDots(names[0]), ", " + more);
      assert (", " + more)[2..] == more;
      LexNamesInverts(names[1..]);
    }
  }

  lemma QualifiedStartsWithQuote(name: string)
    ensures Qualified(name) != "" && Qualified(name)[0] == '\"'
  {
    assert QuoteEach(SplitDots(name))[0] == QuoteIdent(SplitDots(name)[0]);
  }

  lemma LexListInverts(names: seq<string>)
    ensures LexList(Join(QualifiedEach(names), ", ")) == Some(SplitEach(names))
  {
    if names != [] {
      QualifiedStartsWithQuote(names[0]);
      assert QualifiedEach(names)[0] == Qualified(names[0]);
      LexNamesInverts(names);
    }
  }

  /** For all strings, embedded quotes, dots, commas and spaces included, the statement lexes back to
      exactly the publication's name and the dot-separated parts of each table's name. */
  lemma StatementRoundTrip(pubName: string, tables: seq<string>)
    ensures LexStatement(Statement(pubName, tables)) == Some(Publication(pubName, SplitEach(tables)))
  {
    var list := Join(QualifiedEach(tables), ", ");
    var behind := FOR_TABLE + list;
    AfterItsKeyword(CREATE_PUBLICATION, QuoteIdent(pubName) + behind);
    LexIdentInverts(pubName, behind);
    AfterItsKeyword(FOR_TABLE, list);
    LexListInverts(tables);
  }

  lemma AfterItsKeyword(keyword: string, text: string)
    ensures After(keyword, keyword + text) == Some(text)
  {
  }

  lemma {:induction false} JoinUndoesSplit(name: string)
    ensures Join(SplitDots(name), ".") == name
  {
    if name != "" {
      var rest := SplitDots(name[1..]);
      JoinUndoesSplit(name[1..]);
      assert name == [name[0]] + name[1..];
      if name[0] == '.' {
        assert ([""] + rest)[1..] == rest;
      } else {
        JoinLongerFirst(name[0], rest);
      }
    }
  }

  lemma JoinLongerFirst(c: char, parts: seq<string>)
    requires parts != []
    ensures Join([[c] + parts[0]] + parts[1..], ".") == [c] + Join(parts, ".")
  {
    var longer := [[c] + parts[0]] + parts[1..];
    assert longer[1..] == parts[1..];
    if |parts| > 1 {
      assert longer[0] + "." + Join(parts[1..], ".") == [c] + (parts[0] + "." + Join(parts[1..], "."));
    }
  }

  lemma {:induction false} PartsHoldNoDots(name: string)
    ensures forall part :: part in SplitDots(name) ==> '.' !in part
  {
    if name != "" {
      PartsHoldNoDots(name[1..]);
    }
  }

  /** Quoting is injective: different publications or table lists give different statements. */
  lemma StatementIsInjective(p: string, ps: seq<string>, q: string, qs: seq<string>)
    requires Statement(p, ps) == Statement(q, qs)
    ensures p == q && ps == qs
  {
    StatementRoundTrip(p, ps);
    StatementRoundTrip(q, qs);
    var a, b := SplitEach(ps), SplitEach(qs);
    assert |ps| == |a| == |b| == |qs|;
    forall i | 0 <= i < |ps|
      ensures ps[i] == qs[i]
    {
      JoinUndoesSplit(ps[i]);
      JoinUndoesSplit(qs[i]);
      assert a[i] == b[i];
    }
  }

  /** No dot at the end of the name or next to another dot. */
  predicate DotsFollowed(name: string) {
    && (name != "" ==> name[|name| - 1] != '.')
    && forall i :: 0 <= i < |name| - 1 ==> !(name[i] == '.' && name[i + 1] == '.')
  }

  lemma DotsFollowedTail(name: string)
    requires name != ""
    ensures DotsFollowed(name) <==>
            DotsFollowed(name[1..]) && (name[0] == '.' ==> |name| > 1 && name[1] != '.')
  {
    var tail := name[1..];
    if DotsFollowed(name) {
      forall i | 0 <= i < |tail| - 1
        ensures !(tail[i] == '.' && tail[i + 1] == '.')
      {
        assert tail[i] == name[i + 1] && tail[i + 1] == name[i + 2];
      }
    }
    assert forall i :: 0 < i < |name| ==> name[i] == tail[i - 1];
  }

  lemma {:induction false} LaterPartsNonEmptyIff(name: string)
    ensures SplitDots(name)[0] == "" <==> name == "" || name[0] == '.'
    ensures "" !in SplitDots(name)[1..] <==> DotsFollowed(name)
  {
    if name != "" {
      var rest := SplitDots(name[1..]);
      LaterPartsNonEmptyIff(name[1..]);
      DotsFollowedTail(name);
      assert rest == [rest[0]] + rest[1..];
      assert SplitDots(name)[1..] == if name[0] == '.' then rest else rest[1..];
    }
  }

  /** The server rejects zero-length identifiers. A table name gives none exactly when it is not
      empty and has no dot at either end or next to another dot. */
  lemma NoEmptyPartIff(name: string)
    ensures "" !in SplitDots(name) <==> name != "" && name[0] != '.' && DotsFollowed(name)
  {
    LaterPartsNonEmptyIff(name);
    assert SplitDots(name) == [SplitDots(name)[0]] + SplitDots(name)[1..];
  }
}
