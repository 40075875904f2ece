/**
 * The slug mixin of lib/mongoid/urls.rb.
 *
 * The model type's class attributes (`url_keys`, `url_simple`, `reserved_words`)
 * live in a `UrlModel` object, written once by `Url`. A document's slug state
 * (`url`, `urls` and its validation errors) lives in a `Document` object, and
 * `Document.CreateUrls` is the before-validation hook. Two collaborators are
 * parameters: `norm` stands for babosa's `to_slug.normalize.to_s`, and `send`
 * for the document's attribute readers (`send(key)`, nil or a String). The
 * database is a `seq<StoredDoc>` read through `find_by`.
 */
module Urls {
  import opened Wrappers
  import opened RubySupport
  import opened DocumentStore

  // ---------------------------------------------------------------------------
  // Configuration

  /** The options hash of `url(*args)`: `:simple` and `:reserved` (nil when not given). */
  datatype UrlOptions = UrlOptions(simple: bool, reserved: Option<seq<string>>)

  /** The error a second `url` call on one model type raises. */
  datatype ConfigError = AlreadyConfigured

  /** The class attributes once `url` has run. */
  datatype UrlConfig = UrlConfig(keys: seq<string>, simple: bool, reserved: set<string>)

  /** The words no slug may take: `new` and `edit`, with whatever the caller adds. */
  function ReservedWords(extra: Option<seq<string>>): (r: set<string>)
    ensures forall w :: w in r <==> w == "new" || w == "edit" || (extra.Some? && w in extra.value)
  {
    var given := if extra.Some? then extra.value else [];
    {"new", "edit"} + set w | w in given
  }

  /** Membership is exact: a word that only contains a reserved one is free. */
  lemma ReservedWordsExact(extra: Option<seq<string>>)
    requires extra.None? || ("anew" !in extra.value && "newa" !in extra.value)
    ensures "new" in ReservedWords(extra) && "edit" in ReservedWords(extra)
    ensures "anew" !in ReservedWords(extra) && "newa" !in ReservedWords(extra)
  {
  }

  /** A character of the class `[a-z\d-]` (Ruby's `\d` is ASCII only). */
  predicate SlugChar(c: char) {
    'a' <= c <= 'z' || '0' <= c <= '9' || c == '-'
  }

  predicate AllSlugChars(s: string) {
    forall k :: 0 <= k < |s| ==> SlugChar(s[k])
  }

  /** The format rule `/[a-z\d-]+/`, which has no anchors: some non-empty part of `s` matches. */
  predicate FormatMatches(s: string)
    ensures FormatMatches(s) ==> s != []
    ensures s != [] && AllSlugChars(s) ==> FormatMatches(s)
  {
    assert s[0..|s|] == s;
    exists i, j :: 0 <= i < j <= |s| && AllSlugChars(s[i..j])
  }

  /** The unanchored rule accepts exactly the strings holding one lowercase letter, digit or hyphen. */
  lemma FormatMatchesIffSomeSlugChar(s: string)
    ensures FormatMatches(s) <==> exists k :: 0 <= k < |s| && SlugChar(s[k])
  {
    if exists k :: 0 <= k < |s| && SlugChar(s[k]) {
      var k :| 0 <= k < |s| && SlugChar(s[k]);
      assert AllSlugChars(s[k..k + 1]);
    }
    if FormatMatches(s) {
      var i, j :| 0 <= i < j <= |s| && AllSlugChars(s[i..j]);
      assert SlugChar(s[i..j][0]);
    }
  }

  /** Strings that are no slug at all pass the rule, and an upper-case one fails it. */
  lemma FormatIsUnanchored()
    ensures FormatMatches("Hello World!")
    ensures !FormatMatches("ACME!")
  {
    FormatMatchesIffSomeSlugChar("Hello World!");
    assert SlugChar("Hello World!"[1]);
    FormatMatchesIffSomeSlugChar("ACME!");
  }

  // ---------------------------------------------------------------------------
  // Lookup

  /**
   * `find_url(u)` as written: a lookup by current slug, or else (history mode only) a
   * lookup by history entry, with a single rescue of the not-found error around both.
   * When the store raises on a miss (`raiseNotFound`), the first lookup raises whenever
   * no current slug matches, the rescue makes the whole call nil, and the history is
   * never searched.
   */
  function FindUrlAsWritten(store: seq<StoredDoc>, simple: bool, raiseNotFound: bool, u: string): (r: Option<nat>)
    ensures raiseNotFound ==> (r.Some? <==> exists i :: 0 <= i < |store| && store[i].url == Some(u))
    ensures raiseNotFound && r.Some? ==> r.value < |store| && store[r.value].url == Some(u)
    ensures !raiseNotFound ==> r == FindUrl(store, simple, u)
  {
    match FindBy(store, UrlIs(u))
    case Some(i) => Some(i)
    case None =>
      if raiseNotFound || simple then None
      else FindBy(store, UrlsContain(u))
  }

  /**
   * `find_url(u)` as intended: a document whose current slug is `u` if there is one;
   * otherwise, in history mode, a document whose history holds `u`; nil when nothing matches.
   */
  function FindUrl(store: seq<StoredDoc>, simple: bool, u: string): (r: Option<nat>)
    ensures r.Some? ==> r.value < |store|
    ensures r.Some? ==> store[r.value].url == Some(u) || (!simple && u in store[r.value].urls)
    ensures (exists i :: 0 <= i < |store| && store[i].url == Some(u)) ==>
              r.Some? && store[r.value].url == Some(u)
    ensures r.None? <==> forall i :: 0 <= i < |store| ==> store[i].url != Some(u) && (simple || u !in store[i].urls)
  {
    match FindBy(store, UrlIs(u))
    case Some(i) => Some(i)
    case None => if simple then None else FindBy(store, UrlsContain(u))
  }

  /** A superseded slug held by a history-mode document still resolves, but not when `find_by` raises. */
  lemma HistoryLookupSkippedWhenFindByRaises()
    ensures FindUrl([StoredDoc(Some("hello-ruby"), ["im-an-article", "hello-ruby"])], false, "im-an-article") == Some(0)
    ensures FindUrlAsWritten([StoredDoc(Some("hello-ruby"), ["im-an-article", "hello-ruby"])], false, true, "im-an-article") == None
  {
    var d := StoredDoc(Some("hello-ruby"), ["im-an-article", "hello-ruby"]);
    assert "im-an-article" in d.urls;
    assert d.url != Some("im-an-article");
  }

  /** In history mode every slug a stored document ever had keeps resolving to some document. */
  lemma OldSlugStillResolves(store: seq<StoredDoc>, i: nat, u: string)
    requires i < |store| && u in store[i].urls
    ensures FindUrl(store, false, u).Some?
  {
  }

  // ---------------------------------------------------------------------------
  // Candidate search

  /** A key yields a usable slug: its value is not blank and no stored document resolves its slug. */
  predicate Qualifies(key: string, simple: bool, send: string -> Option<string>, norm: string -> string,
                      store: seq<StoredDoc>)
    ensures Qualifies(key, simple, send, norm, store) <==>
              !Blank(send(key)) &&
              forall i :: 0 <= i < |store| ==>
                store[i].url != Some(norm(send(key).value)) && (simple || norm(send(key).value) !in store[i].urls)
  {
    !Blank(send(key)) && FindUrl(store, simple, norm(send(key).value)).None?
  }

  /** The slug `new_url` returns: that of the first key, in declared order, that qualifies. */
  function Candidate(keys: seq<string>, simple: bool, send: string -> Option<string>, norm: string -> string,
                     store: seq<StoredDoc>): (r: Option<string>)
    ensures r.Some? ==> FindUrl(store, simple, r.value).None?
    ensures r.Some? ==> exists k :: k in keys && !Blank(send(k)) && r.value == norm(send(k).value)
  {
    if keys == [] then None
    else if Qualifies(keys[0], simple, send, norm, store) then Some(norm(send(keys[0]).value))
    else Candidate(keys[1..], simple, send, norm, store)
  }

  /** The first qualifying key decides the slug. */
  lemma {:induction false} CandidateAt(keys: seq<string>, i: nat, simple: bool, send: string -> Option<string>,
                                       norm: string -> string, store: seq<StoredDoc>)
    requires i < |keys| && Qualifies(keys[i], simple, send, norm, store)
    requires forall j :: 0 <= j < i ==> !Qualifies(keys[j], simple, send, norm, store)
    ensures Candidate(keys, simple, send, norm, store) == Some(norm(send(keys[i]).value))
  {
    if i > 0 {
      assert !Qualifies(keys[0], simple, send, norm, store);
      CandidateAt(keys[1..], i - 1, simple, send, norm, store);
    }
  }

  /** There is no slug exactly when no key qualifies. */
  lemma {:induction false} CandidateNone(keys: seq<string>, simple: bool, send: string -> Option<string>,
                                         norm: string -> string, store: seq<StoredDoc>)
    ensures Candidate(keys, simple, send, norm, store).None? <==>
              forall j :: 0 <= j < |keys| ==> !Qualifies(keys[j], simple, send, norm, store)
  {
    if keys != [] {
      CandidateNone(keys[1..], simple, send, norm, store);
      assert forall j :: 1 <= j < |keys| ==> keys[j] == keys[1..][j - 1];
    }
  }

  /** Keys after the one that yields the slug are never consulted: their values do not matter. */
  lemma CandidateIgnoresLaterKeys(keys: seq<string>, i: nat, simple: bool, send: string -> Option<string>,
                                  send': string -> Option<string>, norm: string -> string, store: seq<StoredDoc>)
    requires i < |keys| && Qualifies(keys[i], simple, send, norm, store)
    requires forall j :: 0 <= j < i ==> !Qualifies(keys[j], simple, send, norm, store)
    requires forall j :: 0 <= j <= i ==> send'(keys[j]) == send(keys[j])
    ensures Candidate(keys, simple, send', norm, store) == Candidate(keys, simple, send, norm, store)
  {
    CandidateAt(keys, i, simple, send, norm, store);
    assert forall j :: 0 <= j <= i ==>
      Qualifies(keys[j], simple, send', norm, store) == Qualifies(keys[j], simple, send, norm, store);
    CandidateAt(keys, i, simple, send', norm, store);
  }

  /** `new_url`: the loop over `url_keys` with `next` on a blank value or a taken slug. */
  method NewUrl(keys: seq<string>, simple: bool, send: string -> Option<string>, norm: string -> string,
                store: seq<StoredDoc>) returns (r: Option<string>)
    ensures r == Candidate(keys, simple, send, norm, store)
  {
    var i := 0;
    while i < |keys|
      invariant 0 <= i <= |keys|
      invariant Candidate(keys[i..], simple, send, norm, store) == Candidate(keys, simple, send, norm, store)
    {
      assert keys[i..][1..] == keys[i + 1..];
      var val := send(keys[i]);
      if Blank(val) {
        i := i + 1;
        continue;
      }
      var slug := norm(val.value);
      if FindUrl(store, simple, slug).Some? {
        i := i + 1;
        continue;
      }
      return Some(slug);
    }
    return None;
  }

  // ---------------------------------------------------------------------------
  // The document's slug state and the before-validation hook

  /** One entry of a document's `errors`: `errors.add(attribute, kind)`. */
  datatype ValidationError = ValidationError(attribute: string, kind: string)

  /** What `validate_url` records: `errors.add(:url, :reserved)`. */
  const ReservedError := ValidationError("url", "reserved")

  datatype DocState = DocState(url: Option<string>, urls: seq<string>, errors: seq<ValidationError>)

  /** `to_param`: the current slug, which need not be the last entry of the history. */
  function ToParam(st: DocState): (r: Option<string>)
    ensures r == st.url
  {
    st.url
  }

  /**
   * The state `create_urls` leaves: with no candidate nothing changes; otherwise a
   * reserved slug records an error, `url` is set through the normalising setter,
   * and in history mode the slug is appended to `urls`, which is then de-duplicated.
   */
  function CreateUrlsSpec(cfg: UrlConfig, st: DocState, send: string -> Option<string>, norm: string -> string,
                          store: seq<StoredDoc>): (r: DocState)
    ensures r == st || r.url.Some?
    ensures r.errors == st.errors || r.errors == st.errors + [ReservedError]
    ensures cfg.simple ==> r.urls == st.urls
    ensures !cfg.simple ==> forall x :: x in st.urls ==> x in r.urls
    ensures !cfg.simple && r != st ==> NoDuplicates(r.urls)
  {
    match Candidate(cfg.keys, cfg.simple, send, norm, store)
    case None => st
    case Some(slug) =>
      DocState(Some(norm(slug)),
               if cfg.simple then st.urls else Uniq(st.urls + [slug]),
               st.errors + if slug in cfg.reserved then [ReservedError] else [])
  }

  /** With no slug available the hook leaves `url`, `urls` and the errors as they were. */
  lemma CreateUrlsWithoutCandidate(cfg: UrlConfig, st: DocState, send: string -> Option<string>,
                                   norm: string -> string, store: seq<StoredDoc>)
    requires forall j :: 0 <= j < |cfg.keys| ==> !Qualifies(cfg.keys[j], cfg.simple, send, norm, store)
    ensures CreateUrlsSpec(cfg, st, send, norm, store) == st
  {
    CandidateNone(cfg.keys, cfg.simple, send, norm, store);
  }

  /**
   * With a slug the hook assigns `url := norm(slug)` whether or not the slug is
   * reserved, and records exactly one `:reserved` error under `url` when it is.
   */
  lemma CreateUrlsAssigns(cfg: UrlConfig, st: DocState, send: string -> Option<string>, norm: string -> string,
                          store: seq<StoredDoc>, slug: string)
    requires Candidate(cfg.keys, cfg.simple, send, norm, store) == Some(slug)
    ensures CreateUrlsSpec(cfg, st, send, norm, store).url == Some(norm(slug))
    ensures ToParam(CreateUrlsSpec(cfg, st, send, norm, store)) == Some(norm(slug))
    ensures slug in cfg.reserved ==> CreateUrlsSpec(cfg, st, send, norm, store).errors == st.errors + [ReservedError]
    ensures slug !in cfg.reserved ==> CreateUrlsSpec(cfg, st, send, norm, store).errors == st.errors
    ensures FindUrl(store, cfg.simple, slug).None?
  {
  }

  /** In simple mode the hook never touches `urls`. */
  lemma CreateUrlsSimple(cfg: UrlConfig, st: DocState, send: string -> Option<string>, norm: string -> string,
                         store: seq<StoredDoc>)
    requires cfg.simple
    ensures CreateUrlsSpec(cfg, st, send, norm, store).urls == st.urls
  {
  }

  /**
   * In history mode, after the hook: the slug is in `urls`, `urls` has no
   * repetitions, nothing else joined it, nothing left it, and the earlier entries
   * keep their relative order (the de-duplicated old list is a prefix of the new one).
   */
  lemma CreateUrlsHistory(cfg: UrlConfig, st: DocState, send: string -> Option<string>, norm: string -> string,
                          store: seq<StoredDoc>, slug: string)
    requires !cfg.simple && Candidate(cfg.keys, cfg.simple, send, norm, store) == Some(slug)
    ensures slug in CreateUrlsSpec(cfg, st, send, norm, store).urls
    ensures NoDuplicates(CreateUrlsSpec(cfg, st, send, norm, store).urls)
    ensures forall x :: x in CreateUrlsSpec(cfg, st, send, norm, store).urls <==> x in st.urls || x == slug
    ensures Uniq(st.urls) <= CreateUrlsSpec(cfg, st, send, norm, store).urls
  {
    assert slug in st.urls + [slug];
    UniqPrefix(st.urls, [slug]);
  }

  /** A history without repetitions stays without them: the slug is appended unless it is already there. */
  lemma CreateUrlsHistoryAppends(cfg: UrlConfig, st: DocState, send: string -> Option<string>,
                                 norm: string -> string, store: seq<StoredDoc>, slug: string)
    requires !cfg.simple && Candidate(cfg.keys, cfg.simple, send, norm, store) == Some(slug)
    requires NoDuplicates(st.urls)
    ensures CreateUrlsSpec(cfg, st, send, norm, store).urls == if slug in st.urls then st.urls else st.urls + [slug]
  {
    UniqAppendToDistinct(st.urls, slug);
  }

  /** A document saved for the first time in history mode gets a one-entry history. */
  lemma CreateUrlsFirstSave(cfg: UrlConfig, send: string -> Option<string>, norm: string -> string,
                            store: seq<StoredDoc>, slug: string)
    requires !cfg.simple && Candidate(cfg.keys, cfg.simple, send, norm, store) == Some(slug)
    ensures CreateUrlsSpec(cfg, DocState(None, [], []), send, norm, store).urls == [slug]
    ensures CreateUrlsSpec(cfg, DocState(None, [], []), send, norm, store).url == Some(norm(slug))
  {
    UniqAppendToDistinct([], slug);
    assert [] + [slug] == [slug];
  }

  /**
   * `url` is the last entry of `urls` only when the slug is new to the history and
   * normalising the slug again leaves it as it is; a slug already in the history
   * keeps its old place, so a document can point at an entry other than the last.
   */
  lemma CreateUrlsLastEntry(cfg: UrlConfig, st: DocState, send: string -> Option<string>, norm: string -> string,
                            store: seq<StoredDoc>, slug: string)
    requires !cfg.simple && Candidate(cfg.keys, cfg.simple, send, norm, store) == Some(slug)
    requires NoDuplicates(st.urls)
    ensures var st' := CreateUrlsSpec(cfg, st, send, norm, store);
            |st'.urls| > 0 &&
            (slug !in st.urls && norm(slug) == slug ==> st'.url == Some(st'.urls[|st'.urls| - 1])) &&
            (slug in st.urls && st.urls[|st.urls| - 1] != slug ==> st'.urls[|st'.urls| - 1] != slug)
  {
    UniqAppendToDistinct(st.urls, slug);
  }

  // ---------------------------------------------------------------------------
  // The objects the source updates in place

  /** The class attributes of one model type (`cattr_accessor`), nil until `url` is called. */
  class UrlModel {
    var urlKeys: Option<seq<string>>
    var urlSimple: bool
    var reservedWords: set<string>

    constructor ()
      ensures urlKeys == None && !urlSimple && reservedWords == {}
    {
      urlKeys := None;
      urlSimple := false;
      reservedWords := {};
    }

    function Config(): (c: UrlConfig)
      reads this
      requires urlKeys.Some?
    {
      UrlConfig(urlKeys.value, urlSimple, reservedWords)
    }

    /**
     * `url(*args)`: fails when the keys are already set (even to an empty list);
     * otherwise stores the keys in the order given, the `:simple` flag and the reserved words.
     */
    method Url(args: seq<string>, options: UrlOptions) returns (r: Outcome<ConfigError>)
      modifies this
      ensures old(urlKeys).Some? ==> r == Fail(AlreadyConfigured) && unchanged(this)
      ensures old(urlKeys).None? ==> r == Pass && urlKeys == Some(args) && urlSimple == options.simple &&
                                     reservedWords == ReservedWords(options.reserved)
    {
      if urlKeys.Some? {
        return Fail(AlreadyConfigured);
      }
      urlKeys := Some(args);
      urlSimple := options.simple;
      reservedWords := ReservedWords(options.reserved);
      r := Pass;
    }
  }

  /** A second `url` call on one model type fails, and the first call's configuration stays. */
  method SecondUrlCallFails(first: seq<string>, o1: UrlOptions, second: seq<string>, o2: UrlOptions)
    returns (r1: Outcome<ConfigError>, r2: Outcome<ConfigError>, cfg: UrlConfig)
    ensures r1 == Pass && r2 == Fail(AlreadyConfigured)
    ensures cfg == UrlConfig(first, o1.simple, ReservedWords(o1.reserved))
  {
    var m := new UrlModel();
    r1 := m.Url(first, o1);
    r2 := m.Url(second, o2);
    cfg := m.Config();
  }

  /** A document's slug state. In simple mode `urls` is not a field of the model and stays untouched. */
  class Document {
    const model: UrlModel
    var url: Option<string>
    var urls: seq<string>
    var errors: seq<ValidationError>

    constructor (model: UrlModel)
      ensures this.model == model && url == None && urls == [] && errors == []
    {
      this.model := model;
      url := None;
      urls := [];
      errors := [];
    }

    function State(): (s: DocState)
      reads this
    {
      DocState(url, urls, errors)
    }

    /** The generated setter `url=`: the value is normalised before it is stored. */
    method SetUrl(val: string, norm: string -> string)
      modifies this`url
      ensures url == Some(norm(val))
    {
      url := Some(norm(val));
    }

    /** `validate_url`: a reserved slug adds `:reserved` under `url`; nothing else is checked. */
    method ValidateUrl(slug: string)
      modifies this`errors
      ensures errors == old(errors) + if slug in model.reservedWords then [ReservedError] else []
    {
      if slug !in model.reservedWords {
        return;
      }
      errors := errors + [ReservedError];
    }

    /** `create_urls`, the before-validation hook. */
    method CreateUrls(send: string -> Option<string>, norm: string -> string, store: seq<StoredDoc>)
      requires model.urlKeys.Some?
      modifies this
      ensures State() == CreateUrlsSpec(model.Config(), old(State()), send, norm, store)
      ensures !model.urlSimple && NoDuplicates(old(urls)) ==> NoDuplicates(urls)
    {
      var slug := NewUrl(model.urlKeys.value, model.urlSimple, send, norm, store);
      if slug.None? {
        return;
      }
      ValidateUrl(slug.value);
      SetUrl(slug.value, norm);
      if model.urlSimple {
        return;
      }
      urls := urls + [slug.value];
      urls := Uniq(urls);
    }
  }
}
