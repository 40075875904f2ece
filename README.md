# mongoid-urls slug logic, modelled in Dafny

This project models the slug mixin of `mongoid-urls`. The mixin gives each
document of a Mongoid model type a friendly URL (`url`). In history mode it
also keeps every URL the document has had (`urls`). The slug comes from the
first source attribute, in declared order, whose value is not blank and whose
normalised form no stored document resolves.

The model has four parts, in `urls.dfy` (module `Urls`):

- **One-shot configuration.** `url(*args)` writes the class attributes
  `url_keys`, `url_simple` and `reserved_words` once. A second call fails. This
  is the `UrlModel` class and its `Url` method.
- **Candidate search.** `new_url` is the method `NewUrl`, a loop proved equal
  to the recursive specification `Candidate`. Lemmas say that this is the
  first qualifying key and that later keys are never read.
- **Lookup.** `find_url` has two members. `FindUrlAsWritten` takes a flag for
  Mongoid's `raise_not_found_error` setting and follows the code as written.
  `FindUrl` is the corrected lookup (see Findings). The candidate search uses
  `FindUrl`.
- **The before-validation hook.** `create_urls` is `Document.CreateUrls`. It
  calls `NewUrl`, `ValidateUrl` (`validate_url`) and `SetUrl` (the generated
  `url=` setter). Its effect equals the value-level function `CreateUrlsSpec`,
  and the lemmas `CreateUrls*` are about that function.

Three supporting modules:

- `RubySupport` models ActiveSupport's `blank?` and Ruby's `Array#uniq!`.
- `DocumentStore` models the stored documents and Mongoid's `find_by`.
- `Models` (in `models.dfy`) models the `Company` and `Article` fixtures and
  their fallback scenarios.

Two collaborators are parameters, not definitions:

- `norm: string -> string` stands for babosa's `to_slug.normalize.to_s`. Nothing
  is assumed about it, not even idempotence.
- `send: string -> Option<string>` stands for the document's attribute readers.
  A reader returns nil or a String.

The database is a `seq<StoredDoc>`. Each `StoredDoc` has a `url` and a `urls`.
`find_by` returns the index of the first document in store order that matches.

Four behaviours of the code that a reader might not expect:

- The store check in `new_url` does not leave out the document itself. Saving an
  unchanged `Company` therefore moves its slug from `nick` to `name`
  (`CompanyResaveMovesSlug`). A single-key `Article` keeps its state
  (`ArticleResaveUnchanged`).
- A reserved slug is still assigned. Only a `:reserved` error is recorded, and it
  goes under `url`, not under the source attribute.
- `url` is set through the normalising setter, so it becomes `norm(slug)`. `urls`
  gets `slug` itself.
- `url` is not always the last entry of `urls`. A slug already in the history
  keeps its old place (`CreateUrlsLastEntry`).

## Model

| member | source | states |
|---|---|---|
| `DocumentStore.FindBy` | lib/mongoid/urls.rb:44 | returns the first stored document matching the query; nil exactly when no document matches |
| `RubySupport.Uniq` | lib/mongoid/urls.rb:93 | the result has no repetitions and holds exactly the elements of the input |
| `RubySupport.UniqOfDistinct` | lib/mongoid/urls.rb:93 | an array without repetitions is left unchanged |
| `RubySupport.UniqAppendToDistinct` | lib/mongoid/urls.rb:92-93 | appending to a repetition-free array and de-duplicating gives the array itself if the element was present, else the array plus the element |
| `RubySupport.UniqPrefix` | lib/mongoid/urls.rb:93 | the de-duplicated array is a prefix of the de-duplicated array with more elements appended |
| `RubySupport.UniqKeepsFirstOccurrenceOrder` | lib/mongoid/urls.rb:93 | elements of the result appear in the order of their first occurrences in the input |
| `Urls.ReservedWords` | lib/mongoid/urls.rb:36-38 | a word is reserved iff it is `new`, `edit` or in the caller's `:reserved` list (a missing list counts as empty) |
| `Urls.ReservedWordsExact` | spec/mongoid/urls_spec.rb:183-203 | `new` and `edit` are always reserved; `anew` and `newa` are not, unless the caller adds them |
| `RubySupport.Blank` | lib/mongoid/urls.rb:71 | nil and the empty String are blank; a value is non-blank iff it is a String with some character outside Unicode White_Space |
| `RubySupport.BlankExamples` | lib/mongoid/urls.rb:71 | a String of mixed white space, no-break space and ideographic space included, is blank; `  a ` is not |
| `Urls.FormatMatches` | lib/mongoid/urls.rb:40 | a string that passes the format rule is non-empty; a non-empty string made only of slug characters passes |
| `Urls.FormatMatchesIffSomeSlugChar` | lib/mongoid/urls.rb:39-40 | the unanchored rule `[a-z\d-]+` matches iff the string has a lowercase ASCII letter, an ASCII digit or a hyphen |
| `Urls.FormatIsUnanchored` | lib/mongoid/urls.rb:40 | `Hello World!` passes the format rule and `ACME!` fails it |
| `Urls.FindUrlAsWritten` | lib/mongoid/urls.rb:43-47 | when `find_by` raises on a miss, only a current-slug match is found; when it does not raise, it agrees with `FindUrl` |
| `Urls.HistoryLookupSkippedWhenFindByRaises` | lib/mongoid/urls.rb:44-46 | a superseded slug resolves under `FindUrl` but is nil under the as-written lookup when `find_by` raises |
| `Urls.FindUrl` | lib/mongoid/urls.rb:43-47 | a current-slug match is preferred; otherwise, in history mode only, a history match; nil iff no document has `u` as its slug (nor in its history, in history mode) |
| `Urls.OldSlugStillResolves` | lib/mongoid/urls.rb:44 | in history mode, any slug in some stored document's history resolves |
| `Urls.Qualifies` | lib/mongoid/urls.rb:70-73 | a key qualifies iff its value is non-blank and no stored document has its normalised value as slug, nor in its history in history mode |
| `Urls.Candidate` | lib/mongoid/urls.rb:68-77 | a returned slug is the normalised value of some non-blank key, and the store does not resolve it |
| `Urls.CandidateAt` | lib/mongoid/urls.rb:68-77 | if key `i` is the first that is non-blank with an unresolved slug, the result is that key's normalised value |
| `Urls.CandidateNone` | lib/mongoid/urls.rb:68-77 | the result is nil iff every key is blank or has a slug the store resolves |
| `Urls.CandidateIgnoresLaterKeys` | lib/mongoid/urls.rb:69-74 | values of keys after the one that yields the slug do not change the result |
| `Urls.NewUrl` | lib/mongoid/urls.rb:68-77 | the loop's result equals `Candidate` for the same keys, readers, normaliser and store |
| `Urls.ToParam` | lib/mongoid/urls.rb:64-66 | `to_param` returns the current slug `url`; it is not read from `urls`, whose last entry can differ (`Urls.CreateUrlsLastEntry`) |
| `Urls.CreateUrlsSpec` | lib/mongoid/urls.rb:86-94 | the state is unchanged or gets a slug; at most one `:reserved` error is added; simple mode leaves `urls` alone; history mode keeps every old entry and, when it assigns, leaves no repetitions |
| `Urls.CreateUrlsWithoutCandidate` | lib/mongoid/urls.rb:87 | with no qualifying key, `url`, `urls` and the errors stay as they were |
| `Urls.CreateUrlsAssigns` | lib/mongoid/urls.rb:88-90 | with a slug, `url` and `to_param` become `norm(slug)`; a reserved slug adds exactly one `:reserved` error under `url` and is still assigned; the slug was not resolvable |
| `Urls.CreateUrlsSimple` | lib/mongoid/urls.rb:91 | in simple mode `urls` is untouched |
| `Urls.CreateUrlsHistory` | lib/mongoid/urls.rb:92-93 | in history mode the slug is in `urls`, `urls` has no repetitions, its elements are the old ones plus the slug, and the de-duplicated old list is a prefix |
| `Urls.CreateUrlsHistoryAppends` | lib/mongoid/urls.rb:92-93 | for a repetition-free history, the new history is the old one, plus the slug if it was not present |
| `Urls.CreateUrlsFirstSave` | spec/mongoid/urls_spec.rb:125-128 | a document's first save in history mode gives a one-entry history and `url = norm(slug)` |
| `Urls.CreateUrlsLastEntry` | lib/mongoid/urls.rb:90-93 | `url` is the last history entry when the slug is new and `norm(slug) = slug`; a slug already in the history is not moved to the end |
| `Urls.UrlModel.constructor` | lib/mongoid/urls.rb:8-13 | before configuration the keys are nil, `simple` is off and no words are reserved |
| `Urls.UrlModel.Url` | lib/mongoid/urls.rb:25-32 | fails, changing nothing, when keys are already set; otherwise stores the keys in order, the `:simple` flag and the reserved words |
| `Urls.SecondUrlCallFails` | lib/mongoid/urls.rb:27 | on one model type the first `url` call passes and the second fails; the first call's configuration remains |
| `Urls.Document.constructor` | lib/mongoid/urls.rb:52-61 | a new document has no slug, an empty history and no errors |
| `Urls.Document.SetUrl` | lib/mongoid/urls.rb:55-57 | the setter stores the normalised value |
| `Urls.Document.ValidateUrl` | lib/mongoid/urls.rb:81-84 | appends one `:reserved` error under `url` iff the slug is reserved, and otherwise changes nothing |
| `Urls.Document.CreateUrls` | lib/mongoid/urls.rb:86-94 | the new slug state equals `CreateUrlsSpec` of the old one; a repetition-free history stays repetition-free |
| `Models.Fullname` | spec/support/models.rb:11-14 | nil iff both names are nil; the one that exists when only one does; with both, `nick`, then ` - `, then `name`, and nothing else |
| `Models.CompanySend` | lib/mongoid/urls.rb:70 | `send` on a company reads `nick`, `name`, and `fullname` as computed from those two |
| `Models.ArticleSend` | lib/mongoid/urls.rb:70 | `send(:title)` on an article reads its title |
| `Models.FullnameNotBlankWhenBoth` | spec/support/models.rb:12 | with both fields present, even as empty strings, `fullname` is not blank |
| `Models.DeclareModels` | spec/support/models.rb:9-23 | `Company` declares keys `nick, name, fullname` and `Article` declares `title`; both are in history mode with only `new` and `edit` reserved |
| `Models.CompanyWithoutNickOrName` | spec/support/models.rb:13 | a company with neither field has no candidate: `fullname` is nil and so blank |
| `Models.CompanyUsesNick` | spec/support/models.rb:9 | a non-blank, unresolved `nick` slug is chosen whatever `name` holds |
| `Models.CompanyFallsBackToName` | spec/support/models.rb:9 | a blank or taken `nick` hands over to a usable `name` |
| `Models.CompanyFallsBackToFullname` | spec/support/models.rb:9-14 | with both slugs blank or taken, the normalised `nick - name` is chosen if free |
| `Models.CompanyResaveMovesSlug` | lib/mongoid/urls.rb:73 | when the company's own stored copy holds its `nick` slug, a re-save sets `url` from `name` |
| `Models.CompanyFirstOfThree` | spec/support/models.rb:9 | into an empty store, a company with a non-blank `nick` is saved with history `[nick]` and `url = norm(nick slug)` |
| `Models.CompanySecondOfThree` | spec/support/models.rb:9 | with one stored company holding the `nick` slug, the next company with that `nick` is saved under its `name` slug |
| `Models.CompanyThirdOfThree` | spec/support/models.rb:9-14 | with both shorter slugs stored, the next company gets history `[fullname]` |
| `Models.CompanyFallbackScenario` | spec/support/models.rb:9-14 | three companies with one `nick` get histories `[nick]`, `[name]` and `[fullname]` slugs, in that order |
| `Models.ArticleKeepsOldUrls` | spec/mongoid/urls_spec.rb:36-41 | saving with one title, then another, gives the history of both slugs in assignment order |
| `Models.ArticleResaveUnchanged` | lib/mongoid/urls.rb:73 | re-saving an article whose stored copy holds its slug changes nothing |
| `Models.ArticleReservedTitle` | spec/mongoid/urls_spec.rb:183-193 | a title whose slug is `new` or `edit` gets a `:reserved` error under `url`, and the slug is still assigned. The tests at spec/mongoid/urls_spec.rb:186 and :192 expect the error under `title`; the code at lib/mongoid/urls.rb:83 adds it under `url`, and the model follows the code |
| `Models.ArticleSavedTwice` | spec/mongoid/urls_spec.rb:36-41 | the same two saves, run through the `Document` hook object, give that history and slug |

## Findings

| source | as written | input that shows it | evidently intended | confidence | as-written member | corrected member |
|---|---|---|---|---|---|---|
| lib/mongoid/urls.rb:43-47 | one `rescue` of `DocumentNotFound` wraps both `find_by` calls, so if the first `find_by` raises, the history lookup never runs | Mongoid's default `raise_not_found_error` is on. One history-mode document has `url = "hello-ruby"` and `urls = ["im-an-article", "hello-ruby"]`. `find_url("im-an-article")` gives nil | the superseded slug resolves to that document, as the `urls` branch intends | high that the branch is skipped when `raise_not_found_error` is on; not executed | `Urls.FindUrlAsWritten`, `Urls.HistoryLookupSkippedWhenFindByRaises` | `Urls.FindUrl` |

## Left out

- Field and index declarations (`field`, `index`), the validators on `url` (presence, uniqueness, format) and registering the `before_validation` hook are ORM glue. Only the hook body and the format predicate are modelled.
- babosa's slugification is a foreign library; it is the parameter `norm`, with no properties assumed.
- The I18n locale codes added to the reserved set come from a global. The source adds them as one array of symbols, and no String slug equals that.
- The database's unique index on `url`, and the race between the pre-check and the write, are concurrency. Whether a save succeeds after validation is not modelled either: each lemma is given the store contents explicitly.
- Mongoid's result order for `find_by` is modelled as store order. The document returned is its index in the store.
- `find_by_url` is an alias of `find_url` and has no separate member.
- Class attributes shared between a model class and its subclasses (`cattr_accessor`) are not modelled. Each `UrlModel` object is one model type.
- Attribute values that are neither nil nor a String are not modelled: `send` returns an `Option<string>`.
- spec/spec_helper.rb is connection setup and hooks. It is not part of this model.
- The concrete slugs in spec/mongoid/urls_spec.rb (such as `im-a-document`) depend on babosa. The scenario lemmas state them in terms of `norm`.
- `Urls.Candidate`, `Urls.NewUrl` and `Urls.CreateUrlsSpec` (with `Urls.Qualifies` and `Urls.Document.CreateUrls`) use the corrected `FindUrl`, which is the as-written lookup with `raise_not_found_error` off. With it on, a slug held only in another document's history counts as free under the code as written; the candidate search does not capture that case.
