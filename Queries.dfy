/** The read side of db.py: the rows page_fetcher.py still has to fetch,
    the latest modification time, and the ranked full-text search. */
module Queries {
  import opened Common
  import opened Db

  // ---------------------------------------------------------------------
  // get_history_for_text

  /** The entries of `domains_to_ignore` before the image CDNs. */
  function IgnoreHead(): seq<string>
  {
    ["openstreetmap.org", "msqc.com", "localhost", "duckduckgo.com", "google.com", "trello.com",
     "paypal.com", "ebay.com", "amazon.com", "www.expedia.com", "craigslist.org", "chase.com",
     "citi.com", "pnc.com", "wp-admin", "wp-login", "moz-extension://"]
  }

  /** The entries after them. */
  function IgnoreTail(): seq<string>
  {
    ["pbs.twimg.com", "i.imgur.com", "dropboxusercontent", "us.archive.org", "lowes.com",
     "www.homedepot.com", "www.appliancesconnection.com"]
  }

  /** `domains_to_ignore` as the list literal evaluates: `'i.ebayimg.com'`
      and `'googleusercontent'` stand on adjacent lines with no comma
      between them, and adjacent string literals are one string. */
  function IgnoreAsWritten(): (r: seq<string>)
    ensures |r| == 25 && r[17] == "i.ebayimg.comgoogleusercontent"
    ensures r[..17] == IgnoreHead() && r[18..] == IgnoreTail()
  {
    IgnoreHead() + (["i.ebayimg.com" + "googleusercontent"] + IgnoreTail())
  }

  /** `domains_to_ignore` as its layout and comments intend: one entry per
      line, the two image CDNs separately. */
  function IgnoreIntended(): (r: seq<string>)
    ensures |r| == 26 && r[17] == "i.ebayimg.com" && r[18] == "googleusercontent"
    ensures r[..17] == IgnoreAsWritten()[..17] && r[19..] == IgnoreAsWritten()[18..]
  {
    IgnoreHead() + ["i.ebayimg.com", "googleusercontent"] + IgnoreTail()
  }

  /** The `WHERE` condition `url NOT LIKE '%x%' AND …` over the list. No
      entry holds `%` or `_`, so each `LIKE` is a substring test; a NULL url
      makes every `NOT LIKE` NULL, which `WHERE` treats as false. */
  function Admits(url: Option<string>, ignore: seq<string>): bool
  {
    url.Some? && NoneFrom(url.value, ignore, 0)
  }

  /** The conjuncts from entry `i` on. */
  function NoneFrom(u: string, ignore: seq<string>, i: nat): bool
    decreases |ignore| - i
  {
    i >= |ignore| || (!Contains(u, ignore[i]) && NoneFrom(u, ignore, i + 1))
  }

  lemma {:induction false} NoneFromMeans(u: string, ignore: seq<string>, i: nat)
    ensures NoneFrom(u, ignore, i) <==> forall j :: i <= j < |ignore| ==> !Contains(u, ignore[j])
    decreases |ignore| - i
  {
    if i < |ignore| {
      NoneFromMeans(u, ignore, i + 1);
    }
  }

  /** The condition admits exactly the non-NULL urls that contain none of
      the entries. */
  lemma AdmitsMeans(url: Option<string>, ignore: seq<string>)
    ensures Admits(url, ignore) <==> url.Some? && forall j :: 0 <= j < |ignore| ==> !Contains(url.value, ignore[j])
  {
    if url.Some? {
      NoneFromMeans(url.value, ignore, 0);
    }
  }

  /** The query over explicit tables: the history rows with no
      `history_url_text` row (the `LEFT JOIN … IS NULL`) that the ignore
      condition admits. */
  function Unfetched(history: map<string, HistoryRow>, fetched: set<string>, ignore: seq<string>): (r: map<string, HistoryRow>)
    ensures forall id :: id in r <==>
              && id in history && id !in fetched && history[id].url.Some?
              && forall j :: 0 <= j < |ignore| ==> !Contains(history[id].url.value, ignore[j])
    ensures forall id :: id in r ==> r[id] == history[id]
  {
    forall url ensures Admits(url, ignore) <==> url.Some? && forall j :: 0 <= j < |ignore| ==> !Contains(url.value, ignore[j]) {
      AdmitsMeans(url, ignore);
    }
    map id | id in history && id !in fetched && Admits(history[id].url, ignore) :: history[id]
  }

  /** `get_history_for_text(conn)` as the source evaluates it. */
  function GetHistoryForTextAsWritten(conn: Database): (r: map<string, HistoryRow>)
    reads conn
    ensures forall id :: id in r <==>
              && id in conn.history && id !in conn.historyUrlText && conn.history[id].url.Some?
              && forall j :: 0 <= j < |IgnoreAsWritten()| ==> !Contains(conn.history[id].url.value, IgnoreAsWritten()[j])
    ensures forall id :: id in r ==> r[id] == conn.history[id]
  {
    Unfetched(conn.history, conn.historyUrlText.Keys, IgnoreAsWritten())
  }

  /** `get_history_for_text(conn)` with the ignore list intended. */
  function GetHistoryForText(conn: Database): (r: map<string, HistoryRow>)
    reads conn
    ensures forall id :: id in r <==>
              && id in conn.history && id !in conn.historyUrlText && conn.history[id].url.Some?
              && forall j :: 0 <= j < |IgnoreIntended()| ==> !Contains(conn.history[id].url.value, IgnoreIntended()[j])
    ensures forall id :: id in r ==> r[id] == conn.history[id]
  {
    Unfetched(conn.history, conn.historyUrlText.Keys, IgnoreIntended())
  }

  /** Every url the intended list admits, the list as written admits too:
      the merged entry is only ever matched where its first half is. */
  lemma IntendedAdmitsLess(url: Option<string>)
    ensures Admits(url, IgnoreIntended()) ==> Admits(url, IgnoreAsWritten())
  {
    var w, i := IgnoreAsWritten(), IgnoreIntended();
    AdmitsMeans(url, w);
    AdmitsMeans(url, i);
    if Admits(url, i) {
      forall j | 0 <= j < |w| ensures !Contains(url.value, w[j]) {
        if j == 17 {
          assert w[j] == i[17] + i[18];
          if Contains(url.value, i[17] + i[18]) {
            ContainsPrefix(url.value, i[17], i[18]);
          }
        } else if j > 17 {
          assert w[j] == IgnoreTail()[j - 18] == i[j + 1];
        } else {
          assert w[j] == IgnoreHead()[j] == i[j];
        }
      }
    }
  }

  /** The ignore condition over a list made of two parts holds when it
      holds over each part. */
  lemma AdmitsAppend(url: Option<string>, a: seq<string>, b: seq<string>)
    ensures Admits(url, a + b) <==> Admits(url, a) && Admits(url, b)
  {
    AdmitsMeans(url, a + b);
    AdmitsMeans(url, a);
    AdmitsMeans(url, b);
    if url.Some? && Admits(url, a) && Admits(url, b) {
      forall j | 0 <= j < |a + b| ensures !Contains(url.value, (a + b)[j]) {
        if j >= |a| { assert (a + b)[j] == b[j - |a|]; }
      }
    }
    if Admits(url, a + b) {
      forall j | 0 <= j < |a| ensures !Contains(url.value, a[j]) {
        assert (a + b)[j] == a[j];
      }
      forall j | 0 <= j < |b| ensures !Contains(url.value, b[j]) {
        assert (a + b)[|a| + j] == b[j];
      }
    }
  }

  /** The url of the example below: a direct link to an eBay image. */
  function EbayImageUrl(): string { "http://i.ebayimg.com/" }

  /** The characters that tell most entries apart from that url. */
  predicate LacksCommonChars(u: string)
  {
    'n' !in u && 's' !in u && 'l' !in u && 'd' !in u && 'r' !in u && 'z' !in u && 'w' !in u && 'u' !in u
  }

  /** The character facts about the url, in two halves. The url is a
      parameter equal to the literal, rather than the literal itself, so
      that the lemmas using these facts reason about an opaque string and
      stay cheap to prove. */
  lemma EbayImageUrlLacks(u: string)
    requires u == EbayImageUrl()
    ensures 'n' !in u && 's' !in u && 'l' !in u && 'd' !in u
  {
  }

  lemma EbayImageUrlLacksMore(u: string)
    requires u == EbayImageUrl()
    ensures 'r' !in u && 'z' !in u && 'w' !in u && 'u' !in u
  {
  }

  /** The url holds the CDN's host name. */
  lemma EbayImageUrlHasCdn()
    ensures Contains(EbayImageUrl(), "i.ebayimg.com")
  {
    ContainsInfix("http://", "i.ebayimg.com", "/");
    assert "http://" + "i.ebayimg.com" + "/" == EbayImageUrl();
  }

  /** "ebay.com" could only start where "ebay" does, and differs there. */
  lemma EbayImageUrlNotEbayCom()
    ensures !Contains(EbayImageUrl(), "ebay.com")
  {
    var u, t := EbayImageUrl(), "ebay.com";
    var tail := u[10..];
    assert tail == "bayimg.com/";
    NotContainsWindow(tail, t, 0, |tail|);
    assert u[9..][1..] == tail;
    assert u[9..][..8][4] != t[4];
    assert u[0..9] == "http://i.";
    NotContainsWindow(u, t, 0, 9);
  }

  /** "citi.com" could only start before the one 'c' of the url. */
  lemma EbayImageUrlNotCitiCom()
    ensures !Contains(EbayImageUrl(), "citi.com")
  {
    var u := EbayImageUrl();
    NotContainsWindow(u, "citi.com", 0, |u| - 7);
  }

  lemma HeadBackAdmits(u: string)
    requires LacksCommonChars(u) && !Contains(u, "citi.com")
    ensures NoneFrom(u, IgnoreHead(), 8)
  {
    var w := IgnoreHead();
    NotContainsAbsent(u, w[8], 3);
    NotContainsAbsent(u, w[9], 0);
    NotContainsAbsent(u, w[10], 1);
    NotContainsAbsent(u, w[11], 3);
    NotContainsAbsent(u, w[13], 1);
    NotContainsAbsent(u, w[14], 0);
    NotContainsAbsent(u, w[15], 0);
    NotContainsAbsent(u, w[16], 2);
    assert NoneFrom(u, w, 16);
    assert NoneFrom(u, w, 15);
    assert NoneFrom(u, w, 14);
    assert NoneFrom(u, w, 13);
    assert NoneFrom(u, w, 12);
    assert NoneFrom(u, w, 11);
    assert NoneFrom(u, w, 10);
    assert NoneFrom(u, w, 9);
  }

  lemma HeadAdmits(u: string)
    requires LacksCommonChars(u) && !Contains(u, "ebay.com") && !Contains(u, "citi.com")
    ensures Admits(Some(u), IgnoreHead())
  {
    var w := IgnoreHead();
    HeadBackAdmits(u);
    NotContainsAbsent(u, w[0], 3);
    NotContainsAbsent(u, w[1], 1);
    NotContainsAbsent(u, w[2], 0);
    NotContainsAbsent(u, w[3], 0);
    NotContainsAbsent(u, w[4], 4);
    NotContainsAbsent(u, w[5], 1);
    NotContainsAbsent(u, w[6], 5);
    assert NoneFrom(u, w, 7);
    assert NoneFrom(u, w, 6);
    assert NoneFrom(u, w, 5);
    assert NoneFrom(u, w, 4);
    assert NoneFrom(u, w, 3);
    assert NoneFrom(u, w, 2);
    assert NoneFrom(u, w, 1);
    assert NoneFrom(u, w, 0);
  }

  lemma TailAdmits(u: string)
    requires LacksCommonChars(u)
    ensures Admits(Some(u), ["i.ebayimg.com" + "googleusercontent"] + IgnoreTail())
  {
    var w := ["i.ebayimg.com" + "googleusercontent"] + IgnoreTail();
    NotContainsAbsent(u, w[0], 17);
    NotContainsAbsent(u, w[1], 2);
    NotContainsAbsent(u, w[2], 5);
    NotContainsAbsent(u, w[3], 0);
    NotContainsAbsent(u, w[4], 0);
    NotContainsAbsent(u, w[5], 0);
    NotContainsAbsent(u, w[6], 0);
    NotContainsAbsent(u, w[7], 0);
    assert NoneFrom(u, w, 7);
    assert NoneFrom(u, w, 6);
    assert NoneFrom(u, w, 5);
    assert NoneFrom(u, w, 4);
    assert NoneFrom(u, w, 3);
    assert NoneFrom(u, w, 2);
    assert NoneFrom(u, w, 1);
    assert NoneFrom(u, w, 0);
  }

  /** Any url free of those characters and of "ebay.com" and "citi.com"
      passes the filter as written. */
  lemma AsWrittenAdmits(u: string)
    requires LacksCommonChars(u) && !Contains(u, "ebay.com") && !Contains(u, "citi.com")
    ensures Admits(Some(u), IgnoreAsWritten())
  {
    HeadAdmits(u);
    TailAdmits(u);
    AdmitsAppend(Some(u), IgnoreHead(), ["i.ebayimg.com" + "googleusercontent"] + IgnoreTail());
  }

  /** A direct link to an eBay image passes the filter as written... */
  lemma EbayImageAdmitted()
    ensures Admits(Some(EbayImageUrl()), IgnoreAsWritten())
  {
    EbayImageUrlLacks(EbayImageUrl());
    EbayImageUrlLacksMore(EbayImageUrl());
    EbayImageUrlNotEbayCom();
    EbayImageUrlNotCitiCom();
    AsWrittenAdmits(EbayImageUrl());
  }

  /** ...and the list as intended rejects it. */
  lemma EbayImageRejected()
    ensures !Admits(Some(EbayImageUrl()), IgnoreIntended())
  {
    EbayImageUrlHasCdn();
    AdmitsMeans(Some(EbayImageUrl()), IgnoreIntended());
  }

  // ---------------------------------------------------------------------
  // last_history_time

  /** `last_history_time(conn)`: `SELECT max(modified) FROM history`. SQL's
      `max` skips NULLs and is NULL when no value is left; the aggregate is
      computed by one pass over the rows. */
  method LastHistoryTime(conn: Database) returns (r: Option<real>)
    ensures r.None? <==> forall id :: id in conn.history ==> conn.history[id].modified.None?
    ensures r.Some? ==> exists id :: id in conn.history && conn.history[id].modified == r
    ensures r.Some? ==> forall id :: id in conn.history && conn.history[id].modified.Some? ==>
                          conn.history[id].modified.value <= r.value
  {
    r := None;
    var todo := conn.history.Keys;
    while todo != {}
      invariant todo <= conn.history.Keys
      invariant r.None? <==> forall id :: id in conn.history && id !in todo ==> conn.history[id].modified.None?
      invariant r.Some? ==> exists id :: id in conn.history && id !in todo && conn.history[id].modified == r
      invariant r.Some? ==> forall id :: id in conn.history && id !in todo && conn.history[id].modified.Some? ==>
                              conn.history[id].modified.value <= r.value
      decreases |todo|
    {
      var id :| id in todo;
      var m := conn.history[id].modified;
      if m.Some? && (r.None? || r.value < m.value) {
        r := m;
      }
      todo := todo - {id};
    }
  }

  // ---------------------------------------------------------------------
  // search_text

  /** What the text search reports for one `history_url_text` row and the
      query: `ts_rank_cd` of the body, title and headers vectors, and
      whether `@@` matched each. */
  datatype Scores = Scores(processed: real, title: real, headers: real,
                           processedHit: bool, titleHit: bool, headersHit: bool)

  /** The `rank` column. */
  function Rank(s: Scores): real
  {
    s.processed + s.title * 10.0 + s.headers * 5.0
  }

  /** The `WHERE` of the inner query: some column matched. */
  predicate Matches(s: Scores)
  {
    s.processedHit || s.titleHit || s.headersHit
  }

  /** One result row: the history row, the three partial ranks
      (`processed_text_rank`, `title_rank`, `headers_rank`) and `rank`. */
  datatype Hit = Hit(id: string, row: HistoryRow, scores: Scores, rank: real)

  predicate SortedByRank(hs: seq<Hit>)
  {
    forall i, j :: 0 <= i < j < |hs| ==> hs[i].rank >= hs[j].rank
  }

  predicate DistinctIds(hs: seq<Hit>)
  {
    forall i, j :: 0 <= i < j < |hs| ==> hs[i].id != hs[j].id
  }

  /** The ids the search must return: rows present in both tables (the
      inner join) whose text matched. */
  function MatchingIds(conn: Database, score: UrlTextRow -> Scores): set<string>
    reads conn
  {
    set id | id in conn.history && id in conn.historyUrlText && Matches(score(conn.historyUrlText[id]))
  }

  /** A result row is the history row for its id with the scores of its
      joined text row, it matched, and its rank is the weighted sum. */
  predicate IsHit(conn: Database, score: UrlTextRow -> Scores, h: Hit)
    reads conn
  {
    && h.id in conn.history && h.id in conn.historyUrlText
    && h.row == conn.history[h.id] && h.scores == score(conn.historyUrlText[h.id])
    && Matches(h.scores) && h.rank == Rank(h.scores)
  }

  function Ids(hs: seq<Hit>): set<string>
  {
    set h | h in hs :: h.id
  }

  /** In a sorted sequence no row outranks the first. */
  lemma SortedHead(hs: seq<Hit>)
    requires SortedByRank(hs) && hs != []
    ensures forall x :: x in hs[1..] ==> x.rank <= hs[0].rank
  {
    forall x | x in hs[1..] ensures x.rank <= hs[0].rank {
      var k :| 0 <= k < |hs[1..]| && hs[1..][k] == x;
      assert hs[k + 1] == x;
    }
  }

  /** Places `h` before the first row that does not outrank it. */
  function InsertByRank(hs: seq<Hit>, h: Hit): (r: seq<Hit>)
    requires SortedByRank(hs)
    ensures |r| == |hs| + 1
    ensures forall x :: x in r <==> x in hs || x == h
    ensures SortedByRank(r)
  {
    if hs == [] || h.rank >= hs[0].rank then
      [h] + hs
    else
      var rest := InsertByRank(hs[1..], h);
      SortedHead(hs);
      assert hs == [hs[0]] + hs[1..];
      [hs[0]] + rest
  }

  /** The ids after an insertion are the ids before and `h`'s. */
  lemma {:induction false} InsertByRankIds(hs: seq<Hit>, h: Hit)
    requires SortedByRank(hs)
    ensures Ids(InsertByRank(hs, h)) == Ids(hs) + {h.id}
  {
    if hs != [] && h.rank < hs[0].rank {
      assert hs == [hs[0]] + hs[1..];
      InsertByRankIds(hs[1..], h);
    }
  }

  /** Ids stay distinct when `h` brings a new one. */
  lemma {:induction false} InsertByRankDistinct(hs: seq<Hit>, h: Hit)
    requires SortedByRank(hs)
    requires DistinctIds(hs) && h.id !in Ids(hs)
    ensures DistinctIds(InsertByRank(hs, h))
  {
    if hs == [] || h.rank >= hs[0].rank {
      DistinctCons(h, hs);
    } else {
      assert hs == [hs[0]] + hs[1..];
      assert Ids(hs[1..]) <= Ids(hs);
      InsertByRankDistinct(hs[1..], h);
      InsertByRankIds(hs[1..], h);
      DistinctTail(hs);
      DistinctCons(hs[0], InsertByRank(hs[1..], h));
    }
  }

  /** The first row's id does not recur in a sequence of distinct ids. */
  lemma DistinctTail(hs: seq<Hit>)
    requires hs != [] && DistinctIds(hs)
    ensures DistinctIds(hs[1..]) && hs[0].id !in Ids(hs[1..])
  {
    forall x | x in hs[1..] ensures x.id != hs[0].id {
      var k :| 0 <= k < |hs[1..]| && hs[1..][k] == x;
      assert hs[k + 1] == x;
    }
  }

  /** Putting a row with a new id in front keeps ids distinct. */
  lemma DistinctCons(x: Hit, hs: seq<Hit>)
    requires DistinctIds(hs) && x.id !in Ids(hs)
    ensures DistinctIds([x] + hs)
  {
    forall j | 0 < j < |[x] + hs| ensures ([x] + hs)[j].id != x.id {
      assert ([x] + hs)[j] == hs[j - 1];
    }
  }

  /** An insertion adds exactly one occurrence of `h` and keeps every
      other row with its multiplicity. */
  lemma {:induction false} InsertByRankPermutes(hs: seq<Hit>, h: Hit)
    requires SortedByRank(hs)
    ensures multiset(InsertByRank(hs, h)) == multiset(hs) + multiset{h}
  {
    if hs != [] && h.rank < hs[0].rank {
      assert hs == [hs[0]] + hs[1..];
      InsertByRankPermutes(hs[1..], h);
    }
  }

  /** `search_text(conn, query)`: `score` stands for the text search of
      `plainto_tsquery(query)` against a row. Every matching joined row is
      returned once, with its rank, highest rank first; the order among
      equal ranks is unspecified. */
  method SearchText(conn: Database, score: UrlTextRow -> Scores) returns (hits: seq<Hit>)
    ensures forall x :: x in hits ==> IsHit(conn, score, x)
    ensures Ids(hits) == MatchingIds(conn, score)
    ensures DistinctIds(hits)
    ensures SortedByRank(hits)
  {
    hits := [];
    var todo := conn.history.Keys;
    ghost var matching := MatchingIds(conn, score);
    while todo != {}
      invariant todo <= conn.history.Keys
      invariant forall x :: x in hits ==> IsHit(conn, score, x) && x.id !in todo
      invariant Ids(hits) == matching - todo
      invariant DistinctIds(hits) && SortedByRank(hits)
      decreases |todo|
    {
      var id :| id in todo;
      if id in conn.historyUrlText && Matches(score(conn.historyUrlText[id])) {
        var scores := score(conn.historyUrlText[id]);
        var h := Hit(id, conn.history[id], scores, Rank(scores));
        assert id in matching;
        InsertByRankIds(hits, h);
        InsertByRankDistinct(hits, h);
        hits := InsertByRank(hits, h);
      } else {
        assert id !in matching;
      }
      todo := todo - {id};
    }
  }
}
