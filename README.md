# Generated-article parser of the AI news backend

This project models the pure text-processing core of a small news backend. The backend asks a language model for a Turkish news title, a short description and some SEO tags, and stores what comes back. The model covers two parts of `main.py`:

- `clean` (main.py:44-45). It deletes every straight double quote `"` and every curly quote `“` `”`, then strips surrounding whitespace.
- The reply parser inside `generate_ai_content` (main.py:59-66). It is lifted into a pure function `ContentParser.Parse` that takes the model's reply text as input. `Parse` works as follows:
  - It splits the reply on `"\n"`.
  - For each field it takes the first line whose lowercase form contains the field's keyword: `başlık` for the title, `açıklama` for the description, `etiket` for the tags.
  - From that line it takes `line.split(":")[1]`.
  - The title and the description are cleaned. The tag text is split on `,`. Pieces that are only whitespace are dropped, the rest are cleaned and joined with `,`.
  - Defaults: the title is `"Başlık"` when no line mentions its keyword, and the description and tags are `""`.
  - `Parse` returns `Failure(MissingColon(keyword, line))` where the code raises `IndexError`: the first line that mentions a keyword has no colon.

Files:

- `wrappers.dfy`: `Option` and `Result`.
- `strings.dfy`: Python's `str.split` with a one-character separator, `",".join`, the substring test `in`, and subsequences.
- `sanitizer.dfy`: the pieces of `clean`.
  - `replace(c, "")`.
  - `lstrip`, `rstrip` and `strip`, over exactly the code points for which `str.isspace()` holds.
  - `Clean` itself, with its properties.
- `content_parser.dfy`: lowercasing as far as keyword matching needs it, the first-match search, `split(":")[1]`, field extraction, the tag pipeline, `Parse` and its properties.
- `examples_parse.dfy`: concrete replies worked through the model.

How the code is followed where its behaviour is easy to misread:

- **Second colon.** `line.split(":")[1]` is the text between the first and the second colon, not everything after the first colon. `"Başlık: A: B"` gives the title `"A"` (`ContentParser.SecondColonCutsField`, `ParseExamples.TitleStopsAtSecondColon`).
- **No fall-through.** Suppose the first line mentioning a keyword has no colon. The generator consumed by `next` raises `IndexError` there. It never looks at a later line, and it never uses the default (`ContentParser.ExtractSpec`, `ParseExamples.NoFallThroughToLaterLine`).
- **Tag filter before clean.** The tag filter `t.strip()` runs before `clean`, so a piece made only of quotes passes the filter and becomes an empty tag. `a,"",b` gives `a,,b` (`ParseExamples.QuotedPieceBecomesEmptyTag`).
- **Lowercasing is not Turkish-aware.** `str.lower` maps `I` to `i`, not to `ı`, so a line reading `BAŞLIK: X` does not mention `başlık` (`ParseExamples.UpperCaseTitleIsMissed`).

## Model

| member | source | states |
|---|---|---|
| Sanitizer.RemoveChar | main.py:45 | No ensures of its own. It is `replace(c, "")` for one character; `Sanitizer.RemoveCharCounts` states what it does. |
| Sanitizer.RemoveQuotes | main.py:45 | No ensures of its own. It is the chain of three replacements; `Sanitizer.RemoveQuotesCounts`, `Sanitizer.RemoveQuotesIsSubsequence` and `Sanitizer.RemoveQuotesOfQuoteFree` state what it does. |
| Sanitizer.TrimStart | main.py:45 | `lstrip` never makes text longer. `Sanitizer.TrimStartSpec` states the rest. |
| Sanitizer.TrimEnd | main.py:45 | `rstrip` never makes text longer. `Sanitizer.TrimEndSpec` states the rest. |
| Sanitizer.Strip | main.py:45 | No ensures of its own. `Sanitizer.StripIsBordered`, `Sanitizer.StripUnique`, `Sanitizer.StripAllWhitespace`, `Sanitizer.StripEmptyIff` and `Sanitizer.StripIsSubsequence` state what it does. |
| Sanitizer.Clean | main.py:44-45 | The cleaned text contains no `"`, `“` or `”`, and neither its first nor its last character is whitespace. |
| Sanitizer.RemoveCharCounts | main.py:45 | `replace(c, "")` deletes every occurrence of `c` and keeps the count of every other character. |
| Sanitizer.RemoveQuotesCounts | main.py:45 | After the three replacements no quote character is left, and every other character keeps its count. |
| Sanitizer.RemoveQuotesIsSubsequence | main.py:45 | The three replacements only delete characters; the order of the rest is kept. |
| Sanitizer.RemoveQuotesOfQuoteFree | main.py:45 | The replacements leave text without quotes unchanged. |
| Sanitizer.TrimStartSpec | main.py:45 | `lstrip` removes a run of whitespace from the front. What remains is a suffix of the input that is empty or starts with a non-whitespace character. |
| Sanitizer.TrimEndSpec | main.py:45 | `rstrip` removes a run of whitespace from the back. What remains is a prefix of the input that is empty or ends with a non-whitespace character. |
| Sanitizer.StripIsBordered | main.py:45 | `strip` returns a contiguous slice of its input. The slice has no whitespace at either end and only whitespace on either side of it. |
| Sanitizer.StripUnique | main.py:45 | Any trimmed slice with only whitespace around it is exactly what `strip` returns. |
| Sanitizer.StripAllWhitespace | main.py:45 | Text made only of whitespace strips to the empty string. |
| Sanitizer.StripEmptyIff | main.py:64 | `t.strip()` is empty exactly when `t` is all whitespace, so the tag filter drops exactly the all-whitespace pieces. |
| Sanitizer.StripIsSubsequence | main.py:45 | `strip` only deletes characters. |
| Sanitizer.CleanIdempotent | main.py:44-45 | `clean(clean(x)) == clean(x)`. |
| Sanitizer.CleanIsSubsequence | main.py:44-45 | The cleaned text is obtained from the input by deleting characters, so it is never longer than the input. |
| Sanitizer.CleanCharacterisation | main.py:44-45 | With the quotes deleted, the input is the cleaned text with only whitespace around it. Every other trimmed text with that property equals the cleaned text. |
| Sanitizer.CleanFixedPoints | main.py:44-45 | `clean(x) == x` exactly when `x` has no quote characters and no surrounding whitespace. |
| Strings.Split | main.py:60 | `split(sep)` always returns at least one piece, even for the empty string. `Strings.JoinSplit`, `Strings.SplitPiecesLackSeparator` and `Strings.SplitWithoutSeparator` state the rest. |
| Strings.Join | main.py:64 | No ensures of its own. `Strings.SplitJoin` and `ContentParser.JoinTagsEntries` state what it does. |
| Strings.Contains | main.py:61-63 | No ensures of its own. `Strings.ContainsWindow` states what it does. |
| Strings.JoinSplit | main.py:60 | Joining the pieces of `s.split(sep)` with `sep` gives back `s`, so the split loses nothing. |
| Strings.SplitJoin | main.py:64 | Splitting a join of separator-free parts gives back those parts. |
| Strings.SplitPiecesLackSeparator | main.py:60 | No piece produced by `split(sep)` contains `sep`. |
| Strings.SplitWithoutSeparator | main.py:60 | Text without the separator splits into one piece, itself. |
| Strings.SplitAt | main.py:61 | Splitting at the first separator gives the text before it, followed by the pieces of the rest. |
| Strings.ContainsWindow | main.py:61-63 | `kw in s` holds exactly when `kw` occurs in `s` at some index. |
| ContentParser.Lower | main.py:61-63 | `l.lower()` keeps the length, and its result is already lowercase: lowering any of its characters changes nothing. |
| ContentParser.LowerSlice | main.py:61-63 | Lowering works character by character: lowering a slice is slicing the lowered text. |
| ContentParser.LowerIdempotent | main.py:61-63 | `s.lower().lower() == s.lower()`. |
| ContentParser.KeywordsAreLowercase | main.py:61-63 | `başlık`, `açıklama` and `etiket` are their own lowercase forms. |
| ContentParser.Mentions | main.py:61-63 | No ensures of its own. It is `keyword in l.lower()`; the three rows below state what it does. |
| ContentParser.MentionsWindow | main.py:61-63 | A line mentions a keyword exactly when the keyword occurs at some index of the lowered line. |
| ContentParser.MentionsIgnoresCase | main.py:61-63 | A line mentions a keyword exactly when its lowercase form does. |
| ContentParser.MentionsVerbatim | main.py:61-63 | A lowercase keyword that occurs verbatim in a line is always found. |
| ContentParser.Lines | main.py:60 | No ensures of its own. It is `content.split("\n")`; the `Strings.Split` rows state what it does. |
| ContentParser.FirstMatch | main.py:61-63 | The result is `None` exactly when no line mentions the keyword. `Some(i)` means line `i` mentions the keyword and no earlier line does. |
| ContentParser.SecondField | main.py:61 | `line.split(":")[1]` fails exactly when the line has no colon. |
| ContentParser.SecondFieldBetweenColons | main.py:61 | `line.split(":")[1]` is the text strictly between the first colon and the next colon, or between the first colon and the end of the line. |
| ContentParser.SecondColonCutsField | main.py:61 | For `head:field:tail`, where `head` and `field` have no colon, the field is `field` whatever `tail` holds. |
| ContentParser.ExtractSpec | main.py:61-63 | Extraction succeeds exactly when the first mentioning line has a colon, or no line mentions the keyword. It gives the default when no line mentions the keyword. Otherwise it gives the text between that line's first two colons. It fails with that line's index when that line has no colon, whatever later lines hold. |
| ContentParser.Extract | main.py:61-63 | No ensures of its own. `ContentParser.ExtractSpec` states what it does. |
| ContentParser.KeepTag | main.py:64 | No ensures of its own. `ContentParser.KeptTagsSingle` states what it does. |
| ContentParser.KeptTags | main.py:64 | The comprehension keeps at most one entry per piece. `ContentParser.KeptTagsAppend`, `ContentParser.KeptTagsSingle`, `ContentParser.KeptTagsClean` and `ContentParser.KeptTagsCommaFree` state the rest. |
| ContentParser.JoinTags | main.py:64 | No ensures of its own. `ContentParser.JoinTagsEntries`, `ContentParser.JoinTagsQuoteFree` and `ContentParser.JoinTagsOfEmpty` state what it does. |
| ContentParser.KeptTagsAppend | main.py:64 | The filter-and-clean comprehension acts piece by piece and keeps the order of the pieces. |
| ContentParser.KeptTagsSingle | main.py:64 | A piece gives no entry when it is all whitespace, and otherwise one entry, its cleaned text. |
| ContentParser.KeptTagsClean | main.py:64 | Every entry is cleaned text: no quotes and no surrounding whitespace. |
| ContentParser.KeptTagsCommaFree | main.py:64 | Entries made from comma-free pieces contain no comma. |
| ContentParser.JoinTagsEntries | main.py:64 | The tag string is empty when no piece is kept. Otherwise splitting it on `,` gives back exactly the kept entries, in order. |
| ContentParser.JoinTagsQuoteFree | main.py:64 | The tag string contains no quote character. |
| ContentParser.JoinTagsOfEmpty | main.py:64 | The empty tag segment gives the empty tag string. The segment is `""` when no line mentions the tag keyword, by `ContentParser.ExtractSpec`. |
| ContentParser.DefaultTitleIsClean | main.py:61 | `clean("Başlık") == "Başlık"`, so the fallback title comes out unchanged. |
| ContentParser.Parse | main.py:59-66 | A successful parse has a quote-free, trimmed title and description. A failure names one of the three keywords. The rows below state the rest. |
| ContentParser.ParseSucceedsIff | main.py:59-66 | The parse succeeds exactly when, for each of the three keywords, the first line mentioning it has a colon or no line mentions it. |
| ContentParser.ParseFailure | main.py:61-63 | A failure names the first field, in the order title, description, tags, whose first mentioning line has no colon. It also names that line's index. |
| ContentParser.ParseTitle | main.py:61 | The title is the cleaned text between the first two colons of the first line mentioning `başlık`, or `"Başlık"` when no line does. It is quote-free and trimmed. |
| ContentParser.ParseDescription | main.py:62 | The description is the cleaned text between the first two colons of the first line mentioning `açıklama`, or `""` when no line does. It is quote-free and trimmed. |
| ContentParser.ParseTags | main.py:63-64 | The tags are built from the text between the first two colons of the first line mentioning `etiket`, or are `""` when no line does. They never contain a quote. |
| ParseExamples.WellFormedReply | main.py:59-66 | `"Başlık: Test Title\nAçıklama: Test text\nEtiketler: tag1, , tag2,"` parses to title `Test Title`, description `Test text` and tags `tag1,tag2`. |
| ParseExamples.TagsDropBlankPieces | main.py:64 | The tag segment `" tag1, , tag2,"` gives `"tag1,tag2"`. |
| ParseExamples.QuotedPieceBecomesEmptyTag | main.py:64 | The tag segment `a,"",b` gives `a,,b`, because the blank test runs before the quotes are deleted. |
| ParseExamples.TitleStopsAtSecondColon | main.py:61 | `"Başlık: A: B"` parses to title `A`, with an empty description and empty tags. |
| ParseExamples.NoFallThroughToLaterLine | main.py:61 | `"Başlık\nBaşlık: X"` fails on line 0 for the title keyword, even though line 1 has a colon. |
| ParseExamples.UpperCaseTitleIsMissed | main.py:61 | `"BAŞLIK: X"` does not mention `başlık` once lowered, so the title is the default `Başlık`. |
| ParseExamples.CleanDropsCarriageReturn | main.py:45 | A `\r` left at the end of a field by the split on `\n` is removed by `clean`. |

## Left out

- The OpenAI chat call (main.py:50-57) is out of scope. It is a network call; the reply text it returns is the parameter of `Parse`.
- `message.content` can be `None`, and then `content.split` raises `AttributeError`. The model takes a string and does not model that case.
- `generate_image` and its try/except (main.py:69-81) are out of scope: a network call whose only result is a URL or an empty string.
- The SQLite engine, the `BlogContent` table, `save_to_db`, the startup hook and the query endpoints (main.py:15-16, 30-41, 84-93, 104-117) are out of scope. They are thin wrappers over the ORM, and paging and ordering belong to the library.
- FastAPI routing, CORS, the HTTP error mapping and `.env` loading (main.py:1-27, 96-101) are framework plumbing.
- The `utcnow` timestamp (main.py:36) is wall-clock time and is not modelled.
- ContentParser.LowerChar: lowers ASCII capitals, Ç Ğ Ö Ş Ü and the Kelvin sign, and leaves every other character as it is. Keyword matching needs no more:
  - Besides those capitals, the only character Python lowers to a keyword letter is `İ`. It becomes `i` followed by U+0307.
  - No keyword contains `i` followed by U+0307, so keeping `İ` as it is decides `keyword in line.lower()` the same way.
  - Other case changes do not affect a match, and so are not modelled.
- Python strings may hold lone surrogate code points. Dafny's `char` cannot, so such replies are not modelled.
