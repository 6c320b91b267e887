/**
  The parser inside `generate_ai_content` (main.py:59-66), lifted out of the
  network call: it turns the language model's free-text reply into a title,
  a description and a comma-joined list of tags.
 */
module ContentParser {
  import opened Wrappers
  import opened Strings
  import opened Sanitizer

  const TitleKeyword: string := "başlık"
  const DescriptionKeyword: string := "açıklama"
  const TagsKeyword: string := "etiket"

  /** Title used when no line mentions the title keyword. */
  const DefaultTitle: string := "Başlık"

  datatype Article = Article(title: string, description: string, tags: string)

  /**
    `l.split(":")[1]` raised IndexError: the first line that mentions
    `keyword`, at index `line` of the reply, holds no colon.
   */
  datatype ParseError = MissingColon(keyword: string, line: nat)

  /**
    Lowercasing of one character, as Python's `str.lower` does it, for every
    character whose lowercase form is a letter of one of the keywords
    (ASCII capitals, the Kelvin sign) and for the Turkish capitals
    Ç, Ğ, Ö, Ş, Ü. Python lowers 'I' to 'i', never to 'ı'. Dotted 'İ'
    lowers to the two characters "i̇" in Python; it stays as it is
    here, which decides keyword containment the same way because no keyword
    holds 'i' followed by U+0307.
   */
  function LowerChar(c: char): char
  {
    if 'A' <= c <= 'Z' then (c as int + 32) as char
    else if c == 'Ç' then 'ç'
    else if c == 'Ğ' then 'ğ'
    else if c == 'Ö' then 'ö'
    else if c == 'Ş' then 'ş'
    else if c == 'Ü' then 'ü'
    else if c == '\U{212A}' then 'k'
    else c
  }

  /** `s.lower()`, character by character. The result is already lowercase: lowering it again changes nothing. */
  function Lower(s: string): (r: string)
    ensures |r| == |s|
    ensures forall k | 0 <= k < |r| :: LowerChar(r[k]) == r[k]
  {
    seq(|s|, k requires 0 <= k < |s| => LowerChar(s[k]))
  }

  /** `keyword in l.lower()`. */
  predicate Mentions(line: string, keyword: string)
  {
    Contains(Lower(line), keyword)
  }

  /** The generator `(… for l in lines if keyword in l.lower())` consumed by `next`: the first match. */
  function FirstMatch(lines: seq<string>, keyword: string): (r: Option<nat>)
    ensures r.None? <==> forall k | 0 <= k < |lines| :: !Mentions(lines[k], keyword)
    ensures r.Some? ==> r.value < |lines| && Mentions(lines[r.value], keyword)
    ensures r.Some? ==> forall k | 0 <= k < r.value :: !Mentions(lines[k], keyword)
  {
    if lines == [] then None
    else if Mentions(lines[0], keyword) then Some(0)
    else match FirstMatch(lines[1..], keyword)
      case None => None
      case Some(i) => Some(i + 1)
  }

  /** `line.split(":")[1]`, or None where that raises IndexError. */
  function SecondField(line: string): (r: Option<string>)
    ensures r.None? <==> ':' !in line
  {
    var parts := Split(line, ':');
    assert |parts| >= 2 <==> ':' in line by {
      if ':' in line { SplitAt(line, ':', IndexOf(line, ':')); }
      else { SplitWithoutSeparator(line, ':'); }
    }
    if |parts| >= 2 then Some(parts[1]) else None
  }

  /**
    `v` is the text of `line` strictly between its first colon and the next
    colon, or the end of the line when there is no second colon.
   */
  predicate BetweenFirstColons(line: string, v: string)
  {
    && ':' in line
    && var i := IndexOf(line, ':');
    && i + 1 + |v| <= |line|
    && line[i + 1..i + 1 + |v|] == v
    && ':' !in v
    && (i + 1 + |v| == |line| || line[i + 1 + |v|] == ':')
  }

  /**
    `next((l.split(":")[1] for l in lines if keyword in l.lower()), default)`:
    the field of the first line mentioning `keyword`, or `default` when no
    line does.
   */
  function Extract(lines: seq<string>, keyword: string, default: string): Result<string, ParseError>
  {
    match FirstMatch(lines, keyword)
    case None => Success(default)
    case Some(i) =>
      match SecondField(lines[i])
      case None => Failure(MissingColon(keyword, i))
      case Some(v) => Success(v)
  }

  /** What one piece contributes to the comprehension below: `[clean(t)] if t.strip() else []`. */
  function KeepTag(piece: string): seq<string>
  {
    if Strip(piece) != [] then [Clean(piece)] else []
  }

  /** `[clean(t) for t in pieces if t.strip()]`. */
  function KeptTags(pieces: seq<string>): (r: seq<string>)
    ensures |r| <= |pieces|
  {
    if pieces == [] then [] else KeepTag(pieces[0]) + KeptTags(pieces[1..])
  }

  /** `",".join([clean(t) for t in segment.split(",") if t.strip()])`. */
  function JoinTags(segment: string): string
  {
    Join(KeptTags(Split(segment, ',')), ',')
  }

  /** `content.split("\n")`. */
  function Lines(content: string): seq<string>
  {
    Split(content, '\n')
  }

  /** main.py:59-66 with the reply text as input. */
  function Parse(content: string): (r: Result<Article, ParseError>)
    ensures r.Success? ==> QuoteFree(r.value.title) && Trimmed(r.value.title)
    ensures r.Success? ==> QuoteFree(r.value.description) && Trimmed(r.value.description)
    ensures r.Failure? ==> r.error.keyword in {TitleKeyword, DescriptionKeyword, TagsKeyword}
  {
    var lines := Lines(content);
    var title :- Extract(lines, TitleKeyword, DefaultTitle);
    var description :- Extract(lines, DescriptionKeyword, "");
    var tagsSegment :- Extract(lines, TagsKeyword, "");
    Success(Article(Clean(title), Clean(description), JoinTags(tagsSegment)))
  }

  /** The extraction of a field succeeds unless the first line mentioning the keyword has no colon. */
  predicate ColonAvailable(lines: seq<string>, keyword: string)
  {
    match FirstMatch(lines, keyword)
    case None => true
    case Some(i) => ':' in lines[i]
  }

  // ---------------------------------------------------------------------------
  // Keyword matching

  /** Lowering works character by character, so lowering a slice is slicing the lowered text. */
  lemma LowerSlice(s: string, i: nat, j: nat)
    requires i <= j <= |s|
    ensures Lower(s)[i..j] == Lower(s[i..j])
  {
  }

  /** `s.lower().lower() == s.lower()`. */
  lemma LowerIdempotent(s: string)
    ensures Lower(Lower(s)) == Lower(s)
  {
  }

  /** The three keywords are written in lowercase. */
  lemma KeywordsAreLowercase()
    ensures Lower(TitleKeyword) == TitleKeyword
    ensures Lower(DescriptionKeyword) == DescriptionKeyword
    ensures Lower(TagsKeyword) == TagsKeyword
  {
  }

  /** A line mentions a keyword exactly when its lowercase form does: the test ignores case. */
  lemma MentionsIgnoresCase(line: string, keyword: string)
    ensures Mentions(Lower(line), keyword) <==> Mentions(line, keyword)
  {
    LowerIdempotent(line);
  }

  /** A lowercase keyword written verbatim anywhere in a line is found by the test. */
  lemma MentionsVerbatim(line: string, keyword: string, i: nat)
    requires Lower(keyword) == keyword
    requires OccursAt(line, keyword, i)
    ensures Mentions(line, keyword)
  {
    LowerSlice(line, i, i + |keyword|);
    assert OccursAt(Lower(line), keyword, i);
    ContainsWindow(Lower(line), keyword);
  }

  /** A line mentions a keyword exactly when the keyword occurs at some index of the lowered line. */
  lemma MentionsWindow(line: string, keyword: string)
    ensures Mentions(line, keyword) <==> exists i: nat :: OccursAt(Lower(line), keyword, i)
  {
    ContainsWindow(Lower(line), keyword);
  }

  // ---------------------------------------------------------------------------
  // Field extraction

  /** `line.split(":")[1]` is the text between the first and the second colon. */
  lemma SecondFieldBetweenColons(line: string)
    requires ':' in line
    ensures BetweenFirstColons(line, SecondField(line).value)
  {
    var i := IndexOf(line, ':');
    SplitAt(line, ':', i);
    SplitFirstPiece(line[i + 1..], ':');
    SplitPiecesLackSeparator(line, ':');
  }

  /** Whatever follows a second colon is cut off: the field ends at it. */
  lemma SecondColonCutsField(head: string, field: string, tail: string)
    requires ':' !in head && ':' !in field
    ensures SecondField(head + ":" + field + ":" + tail) == Some(field)
  {
    SplitAfterPiece(field, ':', tail);
    SplitAfterPiece(head, ':', field + ":" + tail);
    assert head + ":" + field + ":" + tail == head + [':'] + (field + [':'] + tail);
  }

  /**
    A field is taken from the first line that mentions its keyword and from
    no later line: it is the text between that line's first two colons, the
    default when no line mentions the keyword, and an error when that line
    has no colon, whatever the later lines hold.
   */
  lemma ExtractSpec(lines: seq<string>, keyword: string, default: string)
    ensures Extract(lines, keyword, default).Success? <==> ColonAvailable(lines, keyword)
    ensures FirstMatch(lines, keyword).None? ==> Extract(lines, keyword, default) == Success(default)
    ensures Extract(lines, keyword, default).Failure? ==>
      var e := Extract(lines, keyword, default).error;
      && e.keyword == keyword
      && e.line < |lines|
      && Mentions(lines[e.line], keyword)
      && ':' !in lines[e.line]
      && forall k | 0 <= k < e.line :: !Mentions(lines[k], keyword)
    ensures FirstMatch(lines, keyword).Some? && Extract(lines, keyword, default).Success? ==>
      BetweenFirstColons(lines[FirstMatch(lines, keyword).value], Extract(lines, keyword, default).value)
  {
    match FirstMatch(lines, keyword)
    case None =>
    case Some(i) =>
      if ':' in lines[i] {
        SecondFieldBetweenColons(lines[i]);
      }
  }

  // ---------------------------------------------------------------------------
  // Tags

  /** The tag filter and clean act piece by piece, keeping the order of the pieces. */
  lemma {:induction false} KeptTagsAppend(a: seq<string>, b: seq<string>)
    ensures KeptTags(a + b) == KeptTags(a) + KeptTags(b)
  {
    if a == [] {
      assert a + b == b;
    } else {
      assert (a + b)[0] == a[0];
      assert (a + b)[1..] == a[1..] + b;
      KeptTagsAppend(a[1..], b);
    }
  }

  /** One piece yields one entry, its cleaned text, unless it is all whitespace. */
  lemma KeptTagsSingle(piece: string)
    ensures KeptTags([piece]) == KeepTag(piece)
    ensures KeepTag(piece) == if AllWhitespace(piece) then [] else [Clean(piece)]
  {
    StripEmptyIff(piece);
  }

  /** Every entry is cleaned text: no quotes and no surrounding whitespace. */
  lemma {:induction false} KeptTagsClean(pieces: seq<string>)
    ensures forall t | t in KeptTags(pieces) :: QuoteFree(t) && Trimmed(t)
  {
    if pieces != [] {
      KeptTagsClean(pieces[1..]);
    }
  }

  /** Pieces of a split on ',' clean to entries without ','. */
  lemma {:induction false} KeptTagsCommaFree(pieces: seq<string>)
    requires forall k | 0 <= k < |pieces| :: ',' !in pieces[k]
    ensures forall t | t in KeptTags(pieces) :: ',' !in t
  {
    if pieces != [] {
      var rest := KeptTags(pieces[1..]);
      assert forall k | 0 <= k < |pieces[1..]| :: pieces[1..][k] == pieces[k + 1];
      KeptTagsCommaFree(pieces[1..]);
      if Strip(pieces[0]) != [] {
        CleanIsSubsequence(pieces[0]);
        SubsequenceAbsent(Clean(pieces[0]), pieces[0], ',');
        assert KeptTags(pieces) == [Clean(pieces[0])] + rest;
      } else {
        assert KeptTags(pieces) == rest;
      }
    }
  }

  lemma {:induction false} JoinQuoteFree(parts: seq<string>, sep: char)
    requires !IsQuote(sep)
    requires forall t | t in parts :: QuoteFree(t)
    ensures QuoteFree(Join(parts, sep))
  {
    if |parts| > 1 {
      assert parts[0] in parts;
      assert forall t | t in parts[1..] :: t in parts;
      JoinQuoteFree(parts[1..], sep);
    } else if |parts| == 1 {
      assert parts[0] in parts;
    }
  }

  /**
    The tag string holds one comma-separated entry per piece of the segment
    that is not all whitespace, in order, each entry the cleaned piece; it
    holds no quote, and it is empty when no piece is kept.
   */
  lemma JoinTagsEntries(segment: string)
    ensures KeptTags(Split(segment, ',')) == [] ==> JoinTags(segment) == []
    ensures KeptTags(Split(segment, ',')) != [] ==> Split(JoinTags(segment), ',') == KeptTags(Split(segment, ','))
  {
    var kept := KeptTags(Split(segment, ','));
    SplitPiecesLackSeparator(segment, ',');
    KeptTagsCommaFree(Split(segment, ','));
    if kept != [] {
      assert forall k | 0 <= k < |kept| :: kept[k] in kept;
      SplitJoin(kept, ',');
    }
  }

  /** The tag string holds no quote character. */
  lemma JoinTagsQuoteFree(segment: string)
    ensures QuoteFree(JoinTags(segment))
  {
    var kept := KeptTags(Split(segment, ','));
    KeptTagsClean(Split(segment, ','));
    assert !IsQuote(',');
    JoinQuoteFree(kept, ',');
    assert JoinTags(segment) == Join(kept, ',');
  }

  /** No tag line gives an empty tag string. */
  lemma JoinTagsOfEmpty()
    ensures JoinTags([]) == []
  {
    assert Split([], ',') == [[]];
    assert Strip([]) == [];
    assert KeptTags([[]]) == [];
  }

  // ---------------------------------------------------------------------------
  // The parser

  /** The parse fails exactly when, for one of the three keywords, the first line mentioning it has no colon. */
  lemma ParseSucceedsIff(content: string)
    ensures Parse(content).Success? <==>
      && ColonAvailable(Lines(content), TitleKeyword)
      && ColonAvailable(Lines(content), DescriptionKeyword)
      && ColonAvailable(Lines(content), TagsKeyword)
  {
    var lines := Lines(content);
    ExtractSpec(lines, TitleKeyword, DefaultTitle);
    ExtractSpec(lines, DescriptionKeyword, "");
    ExtractSpec(lines, TagsKeyword, "");
  }

  /**
    The error names the first field, in the order title, description, tags,
    whose first mentioning line has no colon, and the index of that line.
   */
  lemma ParseFailure(content: string)
    requires Parse(content).Failure?
    ensures var e := Parse(content).error; var lines := Lines(content);
      && e.line < |lines|
      && FirstMatch(lines, e.keyword) == Some(e.line)
      && ':' !in lines[e.line]
      && (e.keyword == TitleKeyword
          || (e.keyword == DescriptionKeyword && ColonAvailable(lines, TitleKeyword))
          || (e.keyword == TagsKeyword && ColonAvailable(lines, TitleKeyword) && ColonAvailable(lines, DescriptionKeyword)))
  {
    var lines := Lines(content);
    ExtractSpec(lines, TitleKeyword, DefaultTitle);
    ExtractSpec(lines, DescriptionKeyword, "");
    ExtractSpec(lines, TagsKeyword, "");
  }

  /** A successful parse is made of the three extracted fields. */
  lemma ParseSuccessFields(content: string)
    requires Parse(content).Success?
    ensures var lines := Lines(content);
      && Extract(lines, TitleKeyword, DefaultTitle).Success?
      && Extract(lines, DescriptionKeyword, "").Success?
      && Extract(lines, TagsKeyword, "").Success?
      && Parse(content).value == Article(
           Clean(Extract(lines, TitleKeyword, DefaultTitle).value),
           Clean(Extract(lines, DescriptionKeyword, "").value),
           JoinTags(Extract(lines, TagsKeyword, "").value))
  {
  }

  /** The fallback title passes through clean unchanged. */
  lemma DefaultTitleIsClean()
    ensures Clean(DefaultTitle) == DefaultTitle
  {
    assert QuoteFree(DefaultTitle) && Trimmed(DefaultTitle);
    CleanFixedPoints(DefaultTitle);
  }

  /**
    The title is the cleaned text between the first two colons of the first
    line mentioning "başlık", or "Başlık" when no line does; either way it
    has no quotes and no surrounding whitespace.
   */
  lemma ParseTitle(content: string)
    requires Parse(content).Success?
    ensures var title := Parse(content).value.title; var lines := Lines(content);
      && QuoteFree(title) && Trimmed(title)
      && (FirstMatch(lines, TitleKeyword).None? ==> title == DefaultTitle)
      && (FirstMatch(lines, TitleKeyword).Some? ==>
            exists v :: BetweenFirstColons(lines[FirstMatch(lines, TitleKeyword).value], v) && title == Clean(v))
  {
    var lines := Lines(content);
    ParseSuccessFields(content);
    ExtractSpec(lines, TitleKeyword, DefaultTitle);
    if FirstMatch(lines, TitleKeyword).None? {
      DefaultTitleIsClean();
    }
  }
  /**
    The description is the cleaned text between the first two colons of the
    first line mentioning "açıklama", or empty when no line does.
   */
  lemma ParseDescription(content: string)
    requires Parse(content).Success?
    ensures var description := Parse(content).value.description; var lines := Lines(content);
      && QuoteFree(description) && Trimmed(description)
      && (FirstMatch(lines, DescriptionKeyword).None? ==> description == [])
      && (FirstMatch(lines, DescriptionKeyword).Some? ==>
            exists v :: BetweenFirstColons(lines[FirstMatch(lines, DescriptionKeyword).value], v) && description == Clean(v))
  {
    var lines := Lines(content);
    ParseSuccessFields(content);
    ExtractSpec(lines, DescriptionKeyword, "");
  }

  /**
    The tags are built from the text between the first two colons of the
    first line mentioning "etiket", are empty when no line does, and never
    hold a quote.
   */
  lemma ParseTags(content: string)
    requires Parse(content).Success?
    ensures var tags := Parse(content).value.tags; var lines := Lines(content);
      && QuoteFree(tags)
      && (FirstMatch(lines, TagsKeyword).None? ==> tags == [])
      && (FirstMatch(lines, TagsKeyword).Some? ==>
            exists v :: BetweenFirstColons(lines[FirstMatch(lines, TagsKeyword).value], v) && tags == JoinTags(v))
  {
    var lines := Lines(content);
    ParseSuccessFields(content);
    ExtractSpec(lines, TagsKeyword, "");
    var segment := Extract(lines, TagsKeyword, "").value;
    JoinTagsQuoteFree(segment);
    if FirstMatch(lines, TagsKeyword).None? {
      JoinTagsOfEmpty();
    }
  }
}
