/**
 * The two fixture models of spec/support/models.rb: `Company`, whose slug falls
 * back from `nick` to `name` to the computed `fullname`, and `Article`, whose slug
 * comes from `title` alone. Both keep a slug history (neither passes `:simple`).
 */
module Models {
  import opened Wrappers
  import opened RubySupport
  import opened DocumentStore
  import opened Urls

  const CompanyKeys: seq<string> := ["nick", "name", "fullname"]
  const ArticleKeys: seq<string> := ["title"]

  /** Neither model passes options to `url`. */
  const NoOptions := UrlOptions(false, None)

  /**
   * `Company#fullname`. Only nil is false in Ruby, so an empty `nick` or `name`
   * counts as present.
   */
  function Fullname(nick: Option<string>, name: Option<string>): (r: Option<string>)
    ensures r.None? <==> nick.None? && name.None?
    ensures nick.Some? && name.None? ==> r == nick
    ensures nick.None? && name.Some? ==> r == name
    ensures nick.Some? && name.Some? ==>
              r.Some? && |r.value| == |nick.value| + 3 + |name.value| &&
              r.value[..|nick.value|] == nick.value &&
              r.value[|nick.value|..|nick.value| + 3] == " - " &&
              r.value[|nick.value| + 3..] == name.value
  {
    if nick.Some? && name.Some? then Some(nick.value + " - " + name.value)
    else if nick.Some? then nick
    else name
  }

  /** `send(key)` on a company: its two fields and `fullname`. */
  function CompanySend(nick: Option<string>, name: Option<string>): (read: string -> Option<string>)
    ensures read("nick") == nick && read("name") == name && read("fullname") == Fullname(nick, name)
  {
    key => if key == "nick" then nick
           else if key == "name" then name
           else if key == "fullname" then Fullname(nick, name)
           else None
  }

  /** `send(key)` on an article. */
  function ArticleSend(title: Option<string>): (read: string -> Option<string>)
    ensures read("title") == title
  {
    key => if key == "title" then title else None
  }

  /** With both fields present the joined name holds a hyphen, so it is never blank, even for two empty strings. */
  lemma FullnameNotBlankWhenBoth(nick: string, name: string)
    ensures !Blank(Fullname(Some(nick), Some(name)))
  {
    var f := nick + " - " + name;
    assert f[|nick| + 1] == '-';
  }

  /** `url :nick, :name, :fullname` and `url :title`: the keys in declared order, history mode, the default reserved words. */
  method DeclareModels() returns (company: UrlConfig, article: UrlConfig)
    ensures company.keys == ["nick", "name", "fullname"] && !company.simple
    ensures article.keys == ["title"] && !article.simple
    ensures company.reserved == {"new", "edit"} && article.reserved == {"new", "edit"}
  {
    var c := new UrlModel();
    var rc := c.Url(CompanyKeys, NoOptions);
    company := c.Config();
    var a := new UrlModel();
    var ra := a.Url(ArticleKeys, NoOptions);
    article := a.Config();
  }

  // ---------------------------------------------------------------------------
  // Company: the fallback chain

  /** A company with neither field set has no slug source: all three keys are nil, hence blank. */
  lemma CompanyWithoutNickOrName(norm: string -> string, store: seq<StoredDoc>)
    ensures Candidate(CompanyKeys, false, CompanySend(None, None), norm, store).None?
  {
    CandidateNone(CompanyKeys, false, CompanySend(None, None), norm, store);
  }

  /** A free `nick` slug wins, whatever `name` holds. */
  lemma CompanyUsesNick(nick: string, name: Option<string>, norm: string -> string, store: seq<StoredDoc>)
    requires !Blank(Some(nick)) && FindUrl(store, false, norm(nick)).None?
    ensures Candidate(CompanyKeys, false, CompanySend(Some(nick), name), norm, store) == Some(norm(nick))
  {
    CandidateAt(CompanyKeys, 0, false, CompanySend(Some(nick), name), norm, store);
  }

  /** A blank or taken `nick` passes the turn to `name`. */
  lemma CompanyFallsBackToName(nick: Option<string>, name: string, norm: string -> string, store: seq<StoredDoc>)
    requires Blank(nick) || FindUrl(store, false, norm(nick.value)).Some?
    requires !Blank(Some(name)) && FindUrl(store, false, norm(name)).None?
    ensures Candidate(CompanyKeys, false, CompanySend(nick, Some(name)), norm, store) == Some(norm(name))
  {
    CandidateAt(CompanyKeys, 1, false, CompanySend(nick, Some(name)), norm, store);
  }

  /** With both slugs taken the joined `fullname` is tried last. */
  lemma CompanyFallsBackToFullname(nick: string, name: string, norm: string -> string, store: seq<StoredDoc>)
    requires Blank(Some(nick)) || FindUrl(store, false, norm(nick)).Some?
    requires Blank(Some(name)) || FindUrl(store, false, norm(name)).Some?
    requires FindUrl(store, false, norm(nick + " - " + name)).None?
    ensures Candidate(CompanyKeys, false, CompanySend(Some(nick), Some(name)), norm, store) ==
              Some(norm(nick + " - " + name))
  {
    FullnameNotBlankWhenBoth(nick, name);
    CandidateAt(CompanyKeys, 2, false, CompanySend(Some(nick), Some(name)), norm, store);
  }

  /**
   * The store check does not leave out the document itself: saving an unchanged
   * company whose stored copy already holds its `nick` slug moves the slug to `name`.
   */
  lemma CompanyResaveMovesSlug(nick: string, name: string, st: DocState, norm: string -> string,
                               store: seq<StoredDoc>, self: nat)
    requires self < |store| && norm(nick) in store[self].urls
    requires !Blank(Some(name)) && FindUrl(store, false, norm(name)).None?
    ensures CreateUrlsSpec(UrlConfig(CompanyKeys, false, ReservedWords(None)), st, CompanySend(Some(nick), Some(name)),
                           norm, store).url == Some(norm(norm(name)))
  {
    CompanyFallsBackToName(Some(nick), name, norm, store);
  }

  /** The first company of the scenario below: an empty store, so the `nick` slug is free. */
  lemma CompanyFirstOfThree(nick: string, name: string, norm: string -> string)
    requires !Blank(Some(nick))
    ensures var first := CreateUrlsSpec(UrlConfig(CompanyKeys, false, ReservedWords(None)), DocState(None, [], []),
                                        CompanySend(Some(nick), Some(name)), norm, []);
            first.url == Some(norm(norm(nick))) && first.urls == [norm(nick)]
  {
    CompanyUsesNick(nick, Some(name), norm, []);
    CreateUrlsFirstSave(UrlConfig(CompanyKeys, false, ReservedWords(None)), CompanySend(Some(nick), Some(name)),
                        norm, [], norm(nick));
  }

  /** The second company: the stored first one holds the `nick` slug in its history. */
  lemma CompanySecondOfThree(nick: string, name: string, norm: string -> string, first: DocState)
    requires !Blank(Some(nick)) && !Blank(Some(name))
    requires norm(name) !in {norm(nick), norm(norm(nick))}
    requires first.url == Some(norm(norm(nick))) && first.urls == [norm(nick)]
    ensures var second := CreateUrlsSpec(UrlConfig(CompanyKeys, false, ReservedWords(None)), DocState(None, [], []),
                                         CompanySend(Some(nick), Some(name)), norm, [StoredDoc(first.url, first.urls)]);
            second.url == Some(norm(norm(name))) && second.urls == [norm(name)]
  {
    var store := [StoredDoc(first.url, first.urls)];
    assert norm(nick) in store[0].urls;
    CompanyFallsBackToName(Some(nick), name, norm, store);
    CreateUrlsFirstSave(UrlConfig(CompanyKeys, false, ReservedWords(None)), CompanySend(Some(nick), Some(name)),
                        norm, store, norm(name));
  }

  /** The third company: both stored companies hold the two shorter slugs. */
  lemma CompanyThirdOfThree(nick: string, name: string, norm: string -> string, first: DocState, second: DocState)
    requires !Blank(Some(nick)) && !Blank(Some(name))
    requires norm(nick + " - " + name) !in {norm(nick), norm(norm(nick)), norm(name), norm(norm(name))}
    requires first.url == Some(norm(norm(nick))) && first.urls == [norm(nick)]
    requires second.url == Some(norm(norm(name))) && second.urls == [norm(name)]
    ensures CreateUrlsSpec(UrlConfig(CompanyKeys, false, ReservedWords(None)), DocState(None, [], []),
                           CompanySend(Some(nick), Some(name)), norm,
                           [StoredDoc(first.url, first.urls)] + [StoredDoc(second.url, second.urls)]).urls ==
            [norm(nick + " - " + name)]
  {
    var store := [StoredDoc(first.url, first.urls)] + [StoredDoc(second.url, second.urls)];
    assert norm(nick) in store[0].urls && norm(name) in store[1].urls;
    CompanyFallsBackToFullname(nick, name, norm, store);
    CreateUrlsFirstSave(UrlConfig(CompanyKeys, false, ReservedWords(None)), CompanySend(Some(nick), Some(name)),
                        norm, store, norm(nick + " - " + name));
  }

  /**
   * Three companies with one `nick`: the first takes the `nick` slug, the second
   * (another name) the `name` slug, the third (same name as the second) the `fullname` slug.
   */
  lemma CompanyFallbackScenario(nick: string, name1: string, name2: string, norm: string -> string)
    requires !Blank(Some(nick)) && !Blank(Some(name1))
    requires norm(name1) !in {norm(nick), norm(norm(nick))}
    requires norm(nick + " - " + name1) !in {norm(nick), norm(norm(nick)), norm(name1), norm(norm(name1))}
    ensures var cfg := UrlConfig(CompanyKeys, false, ReservedWords(None));
            var blank := DocState(None, [], []);
            var first := CreateUrlsSpec(cfg, blank, CompanySend(Some(nick), Some(name2)), norm, []);
            var store1 := [StoredDoc(first.url, first.urls)];
            var second := CreateUrlsSpec(cfg, blank, CompanySend(Some(nick), Some(name1)), norm, store1);
            var store2 := store1 + [StoredDoc(second.url, second.urls)];
            var third := CreateUrlsSpec(cfg, blank, CompanySend(Some(nick), Some(name1)), norm, store2);
            first.urls == [norm(nick)] && second.urls == [norm(name1)] && third.urls == [norm(nick + " - " + name1)]
  {
    var cfg := UrlConfig(CompanyKeys, false, ReservedWords(None));
    var blank := DocState(None, [], []);
    CompanyFirstOfThree(nick, name2, norm);
    var first := CreateUrlsSpec(cfg, blank, CompanySend(Some(nick), Some(name2)), norm, []);
    CompanySecondOfThree(nick, name1, norm, first);
    var second := CreateUrlsSpec(cfg, blank, CompanySend(Some(nick), Some(name1)), norm, [StoredDoc(first.url, first.urls)]);
    CompanyThirdOfThree(nick, name1, norm, first, second);
  }

  // ---------------------------------------------------------------------------
  // Article: one key, history mode

  /** The second save of the scenario below: the stored first version holds only the first slug. */
  lemma ArticleSecondSave(title1: string, title2: string, errors: seq<ValidationError>, norm: string -> string)
    requires !Blank(Some(title2))
    requires norm(title2) !in {norm(title1), norm(norm(title1))}
    ensures var saved := DocState(Some(norm(norm(title1))), [norm(title1)], errors);
            var resaved := CreateUrlsSpec(UrlConfig(ArticleKeys, false, ReservedWords(None)), saved,
                                          ArticleSend(Some(title2)), norm, [StoredDoc(saved.url, saved.urls)]);
            resaved.urls == [norm(title1), norm(title2)] && resaved.url == Some(norm(norm(title2)))
  {
    var cfg := UrlConfig(ArticleKeys, false, ReservedWords(None));
    var saved := DocState(Some(norm(norm(title1))), [norm(title1)], errors);
    var doc := StoredDoc(saved.url, saved.urls);
    assert FindUrl([doc], false, norm(title2)).None?;
    CandidateAt(ArticleKeys, 0, false, ArticleSend(Some(title2)), norm, [doc]);
    CreateUrlsAssigns(cfg, saved, ArticleSend(Some(title2)), norm, [doc], norm(title2));
    CreateUrlsHistoryAppends(cfg, saved, ArticleSend(Some(title2)), norm, [doc], norm(title2));
    assert norm(title2) !in saved.urls;
  }

  /**
   * Saving an article, then saving it again under a new title, leaves both slugs in
   * `urls` in assignment order; the second save sees the stored first version.
   */
  lemma ArticleKeepsOldUrls(title1: string, title2: string, norm: string -> string)
    requires !Blank(Some(title1)) && !Blank(Some(title2))
    requires norm(title2) !in {norm(title1), norm(norm(title1))}
    ensures var cfg := UrlConfig(ArticleKeys, false, ReservedWords(None));
            var saved := CreateUrlsSpec(cfg, DocState(None, [], []), ArticleSend(Some(title1)), norm, []);
            var resaved := CreateUrlsSpec(cfg, saved, ArticleSend(Some(title2)), norm, [StoredDoc(saved.url, saved.urls)]);
            saved.urls == [norm(title1)] &&
            resaved.urls == [norm(title1), norm(title2)] &&
            resaved.url == Some(norm(norm(title2)))
  {
    var cfg := UrlConfig(ArticleKeys, false, ReservedWords(None));
    CandidateAt(ArticleKeys, 0, false, ArticleSend(Some(title1)), norm, []);
    CreateUrlsFirstSave(cfg, ArticleSend(Some(title1)), norm, [], norm(title1));
    var saved := CreateUrlsSpec(cfg, DocState(None, [], []), ArticleSend(Some(title1)), norm, []);
    assert saved == DocState(Some(norm(norm(title1))), [norm(title1)], saved.errors);
    ArticleSecondSave(title1, title2, saved.errors, norm);
  }

  /** Saving an unchanged article again finds its own stored slug taken, so nothing changes. */
  lemma ArticleResaveUnchanged(title: string, st: DocState, norm: string -> string, store: seq<StoredDoc>, self: nat)
    requires self < |store| && norm(title) in store[self].urls
    ensures CreateUrlsSpec(UrlConfig(ArticleKeys, false, ReservedWords(None)), st, ArticleSend(Some(title)), norm,
                           store) == st
  {
    CandidateNone(ArticleKeys, false, ArticleSend(Some(title)), norm, store);
  }

  /** A title whose slug is `new` or `edit` gets the `:reserved` error under `url`, and the slug is still assigned. */
  lemma ArticleReservedTitle(title: string, st: DocState, norm: string -> string, store: seq<StoredDoc>)
    requires norm(title) == "new" || norm(title) == "edit"
    requires !Blank(Some(title)) && FindUrl(store, false, norm(title)).None?
    ensures var st' := CreateUrlsSpec(UrlConfig(ArticleKeys, false, ReservedWords(None)), st,
                                      ArticleSend(Some(title)), norm, store);
            st'.errors == st.errors + [ValidationError("url", "reserved")] &&
            st'.url == Some(norm(norm(title)))
  {
    CandidateAt(ArticleKeys, 0, false, ArticleSend(Some(title)), norm, store);
  }

  /** The same two saves run through the `Document` object and its hook. */
  method ArticleSavedTwice(title1: string, title2: string, norm: string -> string)
    returns (urls: seq<string>, url: Option<string>)
    requires !Blank(Some(title1)) && !Blank(Some(title2))
    requires norm(title2) !in {norm(title1), norm(norm(title1))}
    ensures urls == [norm(title1), norm(title2)]
    ensures url == Some(norm(norm(title2)))
  {
    var model := new UrlModel();
    var ok := model.Url(ArticleKeys, NoOptions);
    var article := new Document(model);
    article.CreateUrls(ArticleSend(Some(title1)), norm, []);
    var stored := StoredDoc(article.url, article.urls);
    article.CreateUrls(ArticleSend(Some(title2)), norm, [stored]);
    ArticleKeepsOldUrls(title1, title2, norm);
    urls, url := article.urls, article.url;
  }
}
