/**
  Worked replies: what the parser makes of concrete language-model output,
  including the reply format the service asks for and the corner cases of
  the first-match, colon and tag rules. Each concrete fact has its own small
  lemma; the examples chain them.
 */
module ParseExamples {
  import opened Wrappers
  import opened Strings
  import opened Sanitizer
  import opened ContentParser

  /** Cleaning quote-free text is stripping it, and the strip is fixed by where the trimmed text sits. */
  lemma CleanOfQuoteless(s: string, r: string, i: nat)
    requires StraightQuote !in s && OpeningQuote !in s && ClosingQuote !in s
    requires Trimmed(r) && WhitespaceBordered(s, r, i)
    ensures Strip(s) == r && Clean(s) == r
  {
    RemoveAbsentChar(s, StraightQuote);
    RemoveAbsentChar(RemoveChar(s, StraightQuote), OpeningQuote);
    RemoveAbsentChar(RemoveChar(RemoveChar(s, StraightQuote), OpeningQuote), ClosingQuote);
    StripUnique(s, r, i);
  }

  /** A non-blank piece whose quote-free text is a trimmed word with whitespace around it contributes that word. */
  lemma KeepWord(s: string, w: string, i: nat)
    requires StraightQuote !in s && OpeningQuote !in s && ClosingQuote !in s
    requires w != [] && Trimmed(w) && WhitespaceBordered(s, w, i)
    ensures KeepTag(s) == [w]
  {
    CleanOfQuoteless(s, w, i);
  }

  /** Lines are split on '\n' only; a '\r' left at the end of a field goes with the strip. */
  lemma CleanDropsCarriageReturn()
    ensures Clean(" Test Title\r") == "Test Title"
  {
    assert " Test Title\r"[1..11] == "Test Title";
    CleanOfQuoteless(" Test Title\r", "Test Title", 1);
  }

  /** A line in which no two neighbouring characters lower to the keyword's first two letters does not mention it. */
  lemma NotMentionedByPairs(line: string, keyword: string)
    requires |keyword| >= 2
    requires forall i | 0 <= i < |line| - 1 :: LowerChar(line[i]) != keyword[0] || LowerChar(line[i + 1]) != keyword[1]
    ensures !Mentions(line, keyword)
  {
    var s := Lower(line);
    forall i: nat ensures !OccursAt(s, keyword, i) {
      if i + |keyword| <= |s| {
        assert s[i..i + |keyword|][0] == s[i];
        assert s[i..i + |keyword|][1] == s[i + 1];
      }
    }
    ContainsWindow(s, keyword);
  }

  /** Among three lines, the first match is the first line that mentions the keyword. */
  lemma FirstMatchOfThree(a: string, b: string, c: string, keyword: string)
    ensures Mentions(a, keyword) ==> FirstMatch([a, b, c], keyword) == Some(0)
    ensures !Mentions(a, keyword) && Mentions(b, keyword) ==> FirstMatch([a, b, c], keyword) == Some(1)
    ensures !Mentions(a, keyword) && !Mentions(b, keyword) && Mentions(c, keyword) ==> FirstMatch([a, b, c], keyword) == Some(2)
  {
    assert [a, b, c][1..] == [b, c];
    assert [b, c][1..] == [c];
    assert Mentions(c, keyword) ==> FirstMatch([c], keyword) == Some(0);
    assert !Mentions(b, keyword) && Mentions(c, keyword) ==> FirstMatch([b, c], keyword) == Some(1);
  }

  lemma ParseFromFields(content: string, title: string, description: string, tags: string)
    requires Extract(Lines(content), TitleKeyword, DefaultTitle) == Success(title)
    requires Extract(Lines(content), DescriptionKeyword, "") == Success(description)
    requires Extract(Lines(content), TagsKeyword, "") == Success(tags)
    ensures Parse(content) == Success(Article(Clean(title), Clean(description), JoinTags(tags)))
  {
  }

  /** Splitting a line known to be `head + ":" + field`, with no colon in either part, gives `field`. */
  lemma SecondFieldOf(line: string, head: string, field: string)
    requires line == head + ":" + field && ':' !in head && ':' !in field
    ensures SecondField(line) == Some(field)
  {
    assert line == Join([head, field], ':');
    forall k | 0 <= k < 2 ensures ':' !in [head, field][k] {
      assert k in {0, 1};
    }
    SplitJoin([head, field], ':');
  }

  // ---------------------------------------------------------------------------
  // Tags

  /** The tag list of two pieces is what each piece contributes, in order. */
  lemma KeptTagsOfTwo(a: string, b: string)
    ensures KeptTags([a, b]) == KeepTag(a) + KeepTag(b)
  {
    assert [a, b][1..] == [b];
    assert [b][1..] == [];
  }

  lemma KeptTagsOfThree(a: string, b: string, c: string)
    ensures KeptTags([a, b, c]) == KeepTag(a) + (KeepTag(b) + KeepTag(c))
  {
    assert [a, b, c][1..] == [b, c];
    KeptTagsOfTwo(b, c);
  }

  lemma KeptTagsOfFour(a: string, b: string, c: string, d: string)
    ensures KeptTags([a, b, c, d]) == KeepTag(a) + (KeepTag(b) + (KeepTag(c) + KeepTag(d)))
  {
    assert [a, b, c, d][1..] == [b, c, d];
    KeptTagsOfThree(b, c, d);
  }

  lemma PiecesOfBlankyTags()
    ensures Split(" tag1, , tag2,", ',') == [" tag1", " ", " tag2", ""]
  {
    var pieces := [" tag1", " ", " tag2", ""];
    assert " tag1, , tag2," == Join(pieces, ',');
    forall k | 0 <= k < |pieces| ensures ',' !in pieces[k] {
      assert k in {0, 1, 2, 3};
    }
    SplitJoin(pieces, ',');
  }

  lemma DropSpace() ensures KeepTag(" ") == [] { StripAllWhitespace(" "); }
  lemma DropEmpty() ensures KeepTag("") == [] { StripAllWhitespace(""); }

  lemma BlankyContributions()
    ensures KeepTag(" tag1") + (KeepTag(" ") + (KeepTag(" tag2") + KeepTag(""))) == ["tag1"] + ([] + (["tag2"] + []))
  {
    assert " tag1"[1..5] == "tag1";
    KeepWord(" tag1", "tag1", 1);
    DropSpace();
    assert " tag2"[1..5] == "tag2";
    KeepWord(" tag2", "tag2", 1);
    DropEmpty();
  }

  lemma BlankyKept()
    ensures KeptTags([" tag1", " ", " tag2", ""]) == ["tag1"] + ([] + (["tag2"] + []))
  {
    KeptTagsOfFour(" tag1", " ", " tag2", "");
    BlankyContributions();
  }

  lemma KeptOfBlankyPieces()
    ensures KeptTags([" tag1", " ", " tag2", ""]) == ["tag1", "tag2"]
  {
    BlankyKept();
    assert ["tag1"] + ([] + (["tag2"] + [])) == ["tag1", "tag2"];
  }

  /** Blank pieces, including the one after a trailing comma, are dropped. */
  lemma TagsDropBlankPieces()
    ensures JoinTags(" tag1, , tag2,") == "tag1,tag2"
  {
    BlankySegmentKept();
    JoinTwoTags();
  }

  lemma JoinTwoTags() ensures Join(["tag1", "tag2"], ',') == "tag1,tag2" { }

  lemma BlankySegmentKept()
    ensures KeptTags(Split(" tag1, , tag2,", ',')) == ["tag1", "tag2"]
  {
    PiecesOfBlankyTags();
    KeptOfBlankyPieces();
  }

  lemma PiecesOfQuotedTags()
    ensures Split("a,\"\",b", ',') == ["a", "\"\"", "b"]
  {
    var pieces := ["a", "\"\"", "b"];
    assert "a,\"\",b" == Join(pieces, ',');
    forall k | 0 <= k < |pieces| ensures ',' !in pieces[k] {
      assert k in {0, 1, 2};
    }
    SplitJoin(pieces, ',');
  }

  lemma KeepQuotes() ensures KeepTag("\"\"") == [""]
  {
    StripOfTrimmed("\"\"");
    assert RemoveQuotes("\"\"") == [];
    StripAllWhitespace([]);
  }

  lemma QuotedContributions()
    ensures KeepTag("a") + (KeepTag("\"\"") + KeepTag("b")) == ["a"] + ([""] + ["b"])
  {
    assert "a"[0..1] == "a";
    KeepWord("a", "a", 0);
    KeepQuotes();
    assert "b"[0..1] == "b";
    KeepWord("b", "b", 0);
  }

  lemma QuotedKept()
    ensures KeptTags(["a", "\"\"", "b"]) == ["a"] + ([""] + ["b"])
  {
    KeptTagsOfThree("a", "\"\"", "b");
    QuotedContributions();
  }

  lemma KeptOfQuotedPieces()
    ensures KeptTags(["a", "\"\"", "b"]) == ["a", "", "b"]
  {
    QuotedKept();
    assert ["a"] + ([""] + ["b"]) == ["a", "", "b"];
  }

  /**
    The blank test runs before the quotes are removed, so a piece made of
    quotes survives it and becomes an empty tag.
   */
  lemma QuotedPieceBecomesEmptyTag()
    ensures JoinTags("a,\"\",b") == "a,,b"
  {
    QuotedSegmentKept();
    JoinWithEmptyTag();
  }

  lemma JoinWithEmptyTag() ensures Join(["a", "", "b"], ',') == "a,,b" { }

  lemma QuotedSegmentKept()
    ensures KeptTags(Split("a,\"\",b", ',')) == ["a", "", "b"]
  {
    PiecesOfQuotedTags();
    KeptOfQuotedPieces();
  }

  // ---------------------------------------------------------------------------
  // Whole replies

  // A reply in the layout the prompt asks for: a title line, a description line and a tag line.
  const TitleLine: string := "Başlık: Test Title"
  const DescriptionLine: string := "Açıklama: Test text"
  const TagsLine: string := "Etiketler: tag1, , tag2,"
  const Reply: string := TitleLine + "\n" + DescriptionLine + "\n" + TagsLine

  lemma ReplyLines()
    ensures Lines(Reply) == [TitleLine, DescriptionLine, TagsLine]
  {
    var lines := [TitleLine, DescriptionLine, TagsLine];
    assert Join(lines[2..], '\n') == TagsLine;
    assert Join(lines[1..], '\n') == DescriptionLine + "\n" + TagsLine;
    assert Join(lines, '\n') == TitleLine + "\n" + (DescriptionLine + "\n" + TagsLine);
    assert Reply == Join(lines, '\n');
    forall k | 0 <= k < |lines| ensures '\n' !in lines[k] {
      assert k in {0, 1, 2};
    }
    SplitJoin(lines, '\n');
  }

  lemma TitleLineMentionsTitle() ensures Mentions(TitleLine, TitleKeyword) { assert Lower(TitleLine)[..6] == TitleKeyword; }

  lemma DescriptionLineMentionsDescription() ensures Mentions(DescriptionLine, DescriptionKeyword) { assert Lower(DescriptionLine)[..8] == DescriptionKeyword; }
  lemma TagsLineMentionsTags() ensures Mentions(TagsLine, TagsKeyword) { assert Lower(TagsLine)[..6] == TagsKeyword; }

  lemma TitleLineLacksDescription() ensures !Mentions(TitleLine, DescriptionKeyword)
  {
    NotMentionedByPairs(TitleLine, DescriptionKeyword);
  }
  lemma TitleLineLacksTags() ensures !Mentions(TitleLine, TagsKeyword)
  {
    NotMentionedByPairs(TitleLine, TagsKeyword);
  }
  lemma DescriptionLineLacksTags() ensures !Mentions(DescriptionLine, TagsKeyword)
  {
    NotMentionedByPairs(DescriptionLine, TagsKeyword);
  }

  lemma TitleLineField() ensures SecondField(TitleLine) == Some(" Test Title")
  {
    SecondFieldOf(TitleLine, "Başlık", " Test Title");
  }
  lemma DescriptionLineField() ensures SecondField(DescriptionLine) == Some(" Test text")
  {
    SecondFieldOf(DescriptionLine, "Açıklama", " Test text");
  }
  lemma TagsLineField() ensures SecondField(TagsLine) == Some(" tag1, , tag2,")
  {
    SecondFieldOf(TagsLine, "Etiketler", " tag1, , tag2,");
  }

  lemma TitleMatch() ensures FirstMatch([TitleLine, DescriptionLine, TagsLine], TitleKeyword) == Some(0)
  {
    TitleLineMentionsTitle();
    FirstMatchOfThree(TitleLine, DescriptionLine, TagsLine, TitleKeyword);
  }
  lemma DescriptionMatch() ensures FirstMatch([TitleLine, DescriptionLine, TagsLine], DescriptionKeyword) == Some(1)
  {
    TitleLineLacksDescription();
    DescriptionLineMentionsDescription();
    FirstMatchOfThree(TitleLine, DescriptionLine, TagsLine, DescriptionKeyword);
  }
  lemma TagsMatch() ensures FirstMatch([TitleLine, DescriptionLine, TagsLine], TagsKeyword) == Some(2)
  {
    TitleLineLacksTags();
    DescriptionLineLacksTags();
    TagsLineMentionsTags();
    FirstMatchOfThree(TitleLine, DescriptionLine, TagsLine, TagsKeyword);
  }

  lemma ReplyTitleField() ensures Extract(Lines(Reply), TitleKeyword, DefaultTitle) == Success(" Test Title")
  {
    ReplyLines();
    TitleMatch();
    TitleLineField();
  }
  lemma ReplyDescriptionField() ensures Extract(Lines(Reply), DescriptionKeyword, "") == Success(" Test text")
  {
    ReplyLines();
    DescriptionMatch();
    DescriptionLineField();
  }
  lemma ReplyTagsField() ensures Extract(Lines(Reply), TagsKeyword, "") == Success(" tag1, , tag2,")
  {
    ReplyLines();
    TagsMatch();
    TagsLineField();
  }

  lemma CleanTitle() ensures Clean(" Test Title") == "Test Title"
  {
    assert " Test Title"[1..11] == "Test Title";
    CleanOfQuoteless(" Test Title", "Test Title", 1);
  }
  lemma CleanDescription() ensures Clean(" Test text") == "Test text"
  {
    assert " Test text"[1..10] == "Test text";
    CleanOfQuoteless(" Test text", "Test text", 1);
  }

  /** The reply in the requested format parses into its three fields. */
  lemma WellFormedReply()
    ensures Parse(Reply) == Success(Article("Test Title", "Test text", "tag1,tag2"))
  {
    ReplyTitleField();
    ReplyDescriptionField();
    ReplyTagsField();
    ParseFromFields(Reply, " Test Title", " Test text", " tag1, , tag2,");
    CleanTitle();
    CleanDescription();
    TagsDropBlankPieces();
  }

  // "Başlık: A: B": the title is "A".
  const TwoColonLine: string := "Başlık: A: B"

  lemma TwoColonLineMentionsTitle() ensures Mentions(TwoColonLine, TitleKeyword) { assert Lower(TwoColonLine)[..6] == TitleKeyword; }
  lemma TwoColonLineLacksDescription() ensures !Mentions(TwoColonLine, DescriptionKeyword) { NotMentionedByPairs(TwoColonLine, DescriptionKeyword); }
  lemma TwoColonLineLacksTags() ensures !Mentions(TwoColonLine, TagsKeyword) { NotMentionedByPairs(TwoColonLine, TagsKeyword); }
  lemma TwoColonLineField() ensures SecondField(TwoColonLine) == Some(" A")
  {
    assert ':' !in "Başlık" && ':' !in " A";
    assert TwoColonLine == "Başlık" + ":" + " A" + ":" + " B";
    SecondColonCutsField("Başlık", " A", " B");
  }
  lemma TwoColonLines() ensures Lines(TwoColonLine) == [TwoColonLine] { SplitWithoutSeparator(TwoColonLine, '\n'); }

  lemma TwoColonFields()
    ensures Extract(Lines(TwoColonLine), TitleKeyword, DefaultTitle) == Success(" A")
    ensures Extract(Lines(TwoColonLine), DescriptionKeyword, "") == Success("")
    ensures Extract(Lines(TwoColonLine), TagsKeyword, "") == Success("")
  {
    TwoColonLines();
    TwoColonLineMentionsTitle();
    TwoColonLineLacksDescription();
    TwoColonLineLacksTags();
    TwoColonLineField();
  }

  lemma CleanA() ensures Clean(" A") == "A"
  {
    assert " A"[1..2] == "A";
    CleanOfQuoteless(" A", "A", 1);
  }

  /** `split(":")[1]` keeps only the text up to the second colon. */
  lemma TitleStopsAtSecondColon()
    ensures Parse(TwoColonLine) == Success(Article("A", "", ""))
  {
    TwoColonFields();
    ParseFromFields(TwoColonLine, " A", "", "");
    CleanA();
    StripAllWhitespace("");
    JoinTagsOfEmpty();
  }

  // "Başlık\nBaşlık: X": the first title line has no colon; the second is never looked at.
  const BareTitleLine: string := "Başlık"
  const LaterTitleLine: string := "Başlık: X"
  const BareThenFull: string := BareTitleLine + "\n" + LaterTitleLine

  lemma BareThenFullLines() ensures Lines(BareThenFull) == [BareTitleLine, LaterTitleLine]
  {
    var lines := [BareTitleLine, LaterTitleLine];
    assert Join(lines[1..], '\n') == LaterTitleLine;
    assert Join(lines, '\n') == BareThenFull;
    forall k | 0 <= k < |lines| ensures '\n' !in lines[k] {
      assert k in {0, 1};
    }
    SplitJoin(lines, '\n');
  }

  lemma BareTitleLineMentionsTitle() ensures Mentions(BareTitleLine, TitleKeyword) { assert Lower(BareTitleLine)[..6] == TitleKeyword; }

  lemma BareTitleField() ensures Extract(Lines(BareThenFull), TitleKeyword, DefaultTitle) == Failure(MissingColon(TitleKeyword, 0))
  {
    BareThenFullLines();
    BareTitleLineMentionsTitle();
    assert ':' !in BareTitleLine;
  }

  /** The title search stops at the first mentioning line, even when it has no colon and a later line would do. */
  lemma NoFallThroughToLaterLine()
    ensures Parse(BareThenFull) == Failure(MissingColon(TitleKeyword, 0))
  {
    BareTitleField();
  }

  // "BAŞLIK: X": 'I' lowers to 'i', not to 'ı', so the title keyword is not found.
  const ShoutedTitleLine: string := "BAŞLIK: X"

  lemma ShoutedLineLacksTitle() ensures !Mentions(ShoutedTitleLine, TitleKeyword)
  {
    var s := Lower(ShoutedTitleLine);
    forall i: nat ensures !OccursAt(s, TitleKeyword, i) {
      if i + |TitleKeyword| <= |s| {
        if i == 0 {
          assert s[..6][4] == s[4] == 'i';
        } else {
          assert i in {1, 2, 3};
          assert s[i..i + 6][0] == s[i];
        }
      }
    }
    ContainsWindow(s, TitleKeyword);
  }
  lemma ShoutedLineLacksDescription() ensures !Mentions(ShoutedTitleLine, DescriptionKeyword) { NotMentionedByPairs(ShoutedTitleLine, DescriptionKeyword); }
  lemma ShoutedLineLacksTags() ensures !Mentions(ShoutedTitleLine, TagsKeyword) { NotMentionedByPairs(ShoutedTitleLine, TagsKeyword); }

  lemma ShoutedFields()
    ensures Extract(Lines(ShoutedTitleLine), TitleKeyword, DefaultTitle) == Success(DefaultTitle)
    ensures Extract(Lines(ShoutedTitleLine), DescriptionKeyword, "") == Success("")
    ensures Extract(Lines(ShoutedTitleLine), TagsKeyword, "") == Success("")
  {
    SplitWithoutSeparator(ShoutedTitleLine, '\n');
    ShoutedLineLacksTitle();
    ShoutedLineLacksDescription();
    ShoutedLineLacksTags();
  }

  /** Lowercasing is not Turkish-aware: an upper-case "BAŞLIK" line leaves the default title. */
  lemma UpperCaseTitleIsMissed()
    ensures Parse(ShoutedTitleLine) == Success(Article(DefaultTitle, "", ""))
  {
    ShoutedFields();
    ParseFromFields(ShoutedTitleLine, DefaultTitle, "", "");
    DefaultTitleIsClean();
    StripAllWhitespace("");
    JoinTagsOfEmpty();
  }
}
