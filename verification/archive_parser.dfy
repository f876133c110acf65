/**
 `sme_archive_parser.py`: for one archived article URL, derive the record's
 file name and category from the URL, fetch the page, extract title,
 perex and body, and either write a JSON record or route the URL by its
 failure. The fetch and the HTML parse are inputs (`Fetch`, a `Dom` tree),
 the class-attribute test of BeautifulSoup is `Dom.ClassTest`, the
 JSON text `json.dump` writes is the opaque `dump`.
 */
module ArchiveParser {
  import opened Python
  import opened LazySearch
  import opened Dom
  import opened Utils

  /* ---------------------------------------------------------------------- */
  /* Article identity                                                        */
  /* ---------------------------------------------------------------------- */

  /** `c/(.+?)/`: the article index. */
  function IndexPattern(): Pattern {
    Pattern(Literal("c/"), Literal("/"))
  }

  /** `/https://(.+?).sme`: the category; the `.` before `sme` is a wildcard. */
  function CategoryPattern(): Pattern {
    Pattern(Literal("/https://"), [AnyChar] + Literal("sme"))
  }

  datatype Identity = Identity(index: string, category: string)

  /** Both searches of the handler, or `None` when either finds nothing. */
  function ArticleIdentity(url: string): (r: Option<Identity>)
    ensures r.Some? <==> Search(IndexPattern(), url).Some? && Search(CategoryPattern(), url).Some?
    ensures r.Some? ==> |r.value.index| >= 1 && '\n' !in r.value.index
    ensures r.Some? ==> |r.value.category| >= 1 && '\n' !in r.value.category
  {
    match (Search(IndexPattern(), url), Search(CategoryPattern(), url))
    case (Some(index), Some(category)) => Some(Identity(index, category))
    case _ => None
  }

  /** The index is the text after the leftmost `c/` that is followed, within
      the line, by one or more characters and a `/`; it runs up to the next
      `/` (only its first character can itself be a `/`). */
  lemma IndexRunsToNextSlash(url: string)
    requires SearchMatch(IndexPattern(), url).Some?
    ensures var (i, n) := SearchMatch(IndexPattern(), url).value;
      && i + 3 + n <= |url|
      && url[i..i + 2] == "c/"
      && url[i + 2 + n] == '/'
      && (forall k :: i + 3 <= k < i + 2 + n ==> url[k] != '/')
      && (forall k :: i + 2 <= k < i + 2 + n ==> url[k] != '\n')
      && (forall i': nat, n': nat :: i' < i ==> !MatchAt(IndexPattern(), url, i', n'))
  {
    var p := IndexPattern();
    var (i, n) := SearchMatch(p, url).value;
    SearchIsLeftmostShortest(p, url);
    LiteralAt("c/", url, i);
    LiteralAt("/", url, i + 2 + n);
    assert url[i + 2 + n..i + 3 + n][0] == url[i + 2 + n];
    forall k: nat | i + 3 <= k < i + 2 + n
      ensures url[k] != '/'
    {
      LiteralAt("/", url, k);
      assert !MatchAt(p, url, i, k - (i + 2));
      assert url[k..k + 1][0] == url[k];
    }
  }

  /** Where the parts of `prefix + "c/" + index + "/" + rest` sit. */
  lemma UrlLayout(prefix: string, index: string, rest: string)
    ensures var s := prefix + "c/" + index + "/" + rest;
      && |s| == |prefix| + 3 + |index| + |rest|
      && (forall k :: 0 <= k < |prefix| ==> s[k] == prefix[k])
      && s[|prefix|] == 'c' && s[|prefix| + 1] == '/'
      && (forall k :: 0 <= k < |index| ==> s[|prefix| + 2 + k] == index[k])
      && s[|prefix| + 2 + |index|] == '/'
      && s[|prefix| + 2..|prefix| + 2 + |index|] == index
  {
  }

  /** `c/` matches where a `c` is followed by a `/`. */
  lemma IndexBeforeAt(s: string, k: nat)
    ensures AtomsAt(IndexPattern().before, s, k) <==> k + 2 <= |s| && s[k] == 'c' && s[k + 1] == '/'
  {
    assert Literal("c/")[0] == Lit('c') && Literal("c/")[1] == Lit('/');
  }

  /** The closing `/` matches where a `/` is. */
  lemma IndexAfterAt(s: string, k: nat)
    ensures AtomsAt(IndexPattern().after, s, k) <==> k < |s| && s[k] == '/'
  {
    assert Literal("/")[0] == Lit('/');
  }

  /** No `x` in `s` is followed by `y`. */
  predicate NoPair(s: string, x: char, y: char) {
    forall k :: 0 <= k < |s| - 1 ==> !(s[k] == x && s[k + 1] == y)
  }

  /** Text without the pair, glued to more text without it, has it only
      where the two meet. */
  lemma NoPairAppend(a: string, b: string, x: char, y: char)
    requires NoPair(a, x, y) && NoPair(b, x, y)
    requires |a| > 0 && |b| > 0 ==> !(a[|a| - 1] == x && b[0] == y)
    ensures NoPair(a + b, x, y)
  {
    var s := a + b;
    forall k | 0 <= k < |s| - 1
      ensures !(s[k] == x && s[k + 1] == y)
    {
      if k + 1 < |a| {
        assert s[k] == a[k] && s[k + 1] == a[k + 1];
      } else if k >= |a| {
        assert s[k] == b[k - |a|] && s[k + 1] == b[k + 1 - |a|];
      } else {
        assert s[k] == a[|a| - 1] && s[k + 1] == b[0];
      }
    }
  }

  /** A URL made of text without `c/`, then `c/`, a slash-free index and a
      `/`, yields exactly that index. */
  lemma IndexOfUrl(prefix: string, index: string, rest: string)
    requires NoPair(prefix, 'c', '/')
    requires |index| >= 1 && '/' !in index && '\n' !in index
    ensures Search(IndexPattern(), prefix + "c/" + index + "/" + rest) == Some(index)
  {
    var p := IndexPattern();
    var s := prefix + "c/" + index + "/" + rest;
    IndexSkipsPrefix(prefix, index, rest);
    IndexGroup(prefix, index, rest);
    UrlLayout(prefix, index, rest);
    IndexBeforeAt(s, |prefix|);
    SearchFindsAt(p, s, |prefix|, |index|);
  }

  /** No match starts inside a prefix without `c/`. */
  lemma IndexSkipsPrefix(prefix: string, index: string, rest: string)
    requires NoPair(prefix, 'c', '/')
    ensures SearchFrom(IndexPattern(), prefix + "c/" + index + "/" + rest, 0)
         == SearchFrom(IndexPattern(), prefix + "c/" + index + "/" + rest, |prefix|)
  {
    var p := IndexPattern();
    var s := prefix + "c/" + index + "/" + rest;
    UrlLayout(prefix, index, rest);
    forall k: nat | k < |prefix|
      ensures !AtomsAt(p.before, s, k)
    {
      IndexBeforeAt(s, k);
      if k + 1 < |prefix| {
        assert s[k + 1] == prefix[k + 1];
      }
    }
    SearchFromSkip(p, s, 0, |prefix|);
  }

  /** After `c/` the lazy group runs up to the next `/`. */
  lemma IndexGroup(prefix: string, index: string, rest: string)
    requires |index| >= 1 && '/' !in index && '\n' !in index
    ensures GroupLength(IndexPattern(), prefix + "c/" + index + "/" + rest, |prefix| + 2, 1) == Some(|index|)
  {
    var s := prefix + "c/" + index + "/" + rest;
    var g := |prefix| + 2;
    UrlLayout(prefix, index, rest);
    forall k | g <= k < g + |index|
      ensures s[k] != '\n' && s[k] != '/'
    {
      assert s[g + (k - g)] == index[k - g];
    }
    GroupRunsToSlash(s, g, |index|);
  }

  /** A group of slash-free characters ends at the first `/`. */
  lemma GroupRunsToSlash(s: string, g: nat, m: nat)
    requires 1 <= m && g + m < |s| && s[g + m] == '/'
    requires forall k :: g <= k < g + m ==> s[k] != '\n' && s[k] != '/'
    ensures GroupLength(IndexPattern(), s, g, 1) == Some(m)
  {
    var p := IndexPattern();
    forall k: nat | g + 1 <= k < g + m
      ensures !AtomsAt(p.after, s, k)
    {
      IndexAfterAt(s, k);
    }
    GroupLengthSkip(p, s, g, 1, m);
    IndexAfterAt(s, g + m);
  }

  /** `.sme`: any character but a newline, then `sme`. */
  lemma CategoryAfterAt(s: string, k: nat)
    ensures AtomsAt(CategoryPattern().after, s, k)
      <==> k + 4 <= |s| && s[k] != '\n' && s[k + 1] == 's' && s[k + 2] == 'm' && s[k + 3] == 'e'
  {
    var after := CategoryPattern().after;
    assert after[0] == AnyChar && after[1] == Lit('s') && after[2] == Lit('m') && after[3] == Lit('e');
  }

  /** `/https://` matches only where a `/` is followed by an `h`. */
  lemma CategoryBeforeAt(s: string, k: nat)
    ensures AtomsAt(CategoryPattern().before, s, k) ==> k + 9 <= |s| && s[k] == '/' && s[k + 1] == 'h'
  {
    assert Literal("/https://")[0] == Lit('/') && Literal("/https://")[1] == Lit('h');
  }

  /** `sme` occurs at position `k`. */
  predicate SmeAt(s: string, k: nat) {
    k + 3 <= |s| && s[k] == 's' && s[k + 1] == 'm' && s[k + 2] == 'e'
  }

  /** Where the parts of `prefix + "/" + ("https://" + category + after)` sit. */
  lemma CategoryUrlLayout(prefix: string, category: string, after: string)
    ensures var s := prefix + "/" + ("https://" + category + after);
      var g := |prefix| + 9;
      && |s| == g + |category| + |after|
      && (forall k :: 0 <= k < |prefix| ==> s[k] == prefix[k])
      && s[|prefix|] == '/' && s[|prefix| + 1] == 'h'
      && s[|prefix|..g] == "/https://"
      && (forall k :: 0 <= k < |category| ==> s[g + k] == category[k])
      && s[g..g + |category|] == category
      && (forall k :: 0 <= k < |after| ==> s[g + |category| + k] == after[k])
  {
  }

  /** A URL made of text in which no `/` is followed by `h`, then
      `/https://`, a category without newline, and text that starts with
      any character but a newline followed by `sme`, yields exactly that
      category, provided no `sme` starts at the category's third character
      or later (counting the character after it as part of the category). */
  lemma CategoryOfUrl(prefix: string, category: string, after: string)
    requires NoPair(prefix, '/', 'h')
    requires |category| >= 1 && '\n' !in category
    requires |after| >= 4 && after[0] != '\n' && SmeAt(after, 1)
    requires forall k: nat :: 2 <= k < |category| ==> !SmeAt(category + after[..1], k)
    ensures Search(CategoryPattern(), prefix + "/" + ("https://" + category + after)) == Some(category)
  {
    var p := CategoryPattern();
    var s := prefix + "/" + ("https://" + category + after);
    CategorySkipsPrefix(prefix, category, after);
    CategoryAfterPrefix(prefix, category, after);
    CategorySlice(prefix, category, after);
    SearchFindsAt(p, s, |prefix|, |category|);
  }

  /** The category sits right after `/https://`. */
  lemma CategorySlice(prefix: string, category: string, after: string)
    ensures var s := prefix + "/" + ("https://" + category + after);
      && |s| == |prefix| + 9 + |category| + |after|
      && s[|prefix| + 9..|prefix| + 9 + |category|] == category
  {
    var s := prefix + "/" + ("https://" + category + after);
    assert s == (prefix + "/https://") + category + after;
  }

  /** No match starts inside a prefix in which no `/` is followed by `h`. */
  lemma CategorySkipsPrefix(prefix: string, category: string, after: string)
    requires NoPair(prefix, '/', 'h')
    ensures var s := prefix + "/" + ("https://" + category + after);
      SearchFrom(CategoryPattern(), s, 0) == SearchFrom(CategoryPattern(), s, |prefix|)
  {
    var p := CategoryPattern();
    var s := prefix + "/" + ("https://" + category + after);
    CategoryUrlLayout(prefix, category, after);
    forall k: nat | k < |prefix|
      ensures !AtomsAt(p.before, s, k)
    {
      CategoryBeforeAt(s, k);
      if k + 1 < |prefix| {
        assert s[k + 1] == prefix[k + 1];
      }
    }
    SearchFromSkip(p, s, 0, |prefix|);
  }

  /** At the end of the prefix `/https://` matches and the group is the
      category. */
  lemma CategoryAfterPrefix(prefix: string, category: string, after: string)
    requires |category| >= 1 && '\n' !in category
    requires |after| >= 4 && after[0] != '\n' && SmeAt(after, 1)
    requires forall k: nat :: 2 <= k < |category| ==> !SmeAt(category + after[..1], k)
    ensures var s := prefix + "/" + ("https://" + category + after);
      && AtomsAt(CategoryPattern().before, s, |prefix|)
      && GroupLength(CategoryPattern(), s, |prefix| + 9, 1) == Some(|category|)
  {
    var s := prefix + "/" + ("https://" + category + after);
    CategoryUrlLayout(prefix, category, after);
    LiteralAt("/https://", s, |prefix|);
    CategoryGroupOfParts(s, |prefix| + 9, category, after);
  }

  /** The lazy group of a string that holds `category`, then `after`, from
      position `g` on. */
  lemma CategoryGroupOfParts(s: string, g: nat, category: string, after: string)
    requires |s| == g + |category| + |after|
    requires forall k :: 0 <= k < |category| ==> s[g + k] == category[k]
    requires forall k :: 0 <= k < |after| ==> s[g + |category| + k] == after[k]
    requires |category| >= 1 && '\n' !in category
    requires |after| >= 4 && after[0] != '\n' && SmeAt(after, 1)
    requires forall k: nat :: 2 <= k < |category| ==> !SmeAt(category + after[..1], k)
    ensures GroupLength(CategoryPattern(), s, g, 1) == Some(|category|)
  {
    var m := |category|;
    forall k | g <= k < g + m
      ensures s[k] != '\n'
    {
      assert s[g + (k - g)] == category[k - g];
    }
    var word := category + after[..1];
    forall k | 0 <= k < |word|
      ensures s[g + k] == word[k]
    {
      if k == m {
        assert s[g + m + 0] == after[0];
      } else {
        assert word[k] == category[k];
      }
    }
    assert s[g + m + 1] == after[1] && s[g + m + 2] == after[2] && s[g + m + 3] == after[3];
    NoSmeInGroup(s, g, word);
    CategoryGroup(s, g, m);
  }

  /** A stretch `word` of `s` in which `sme` does not start, followed by
      `sme`: the only `sme` starting in the stretch or right after its last
      character is the one at its end. */
  lemma NoSmeInGroup(s: string, g: nat, word: string)
    requires |word| >= 2 && g + |word| + 3 <= |s|
    requires forall k :: 0 <= k < |word| ==> s[g + k] == word[k]
    requires SmeAt(s, g + |word|)
    requires forall k: nat :: 2 <= k < |word| - 1 ==> !SmeAt(word, k)
    ensures forall k: nat :: g + 2 <= k < g + |word| ==> !SmeAt(s, k)
  {
    forall k: nat | g + 2 <= k < g + |word|
      ensures !SmeAt(s, k)
    {
      if k + 3 <= g + |word| {
        assert s[g + (k - g)] == word[k - g];
        assert s[g + (k + 1 - g)] == word[k + 1 - g];
        assert s[g + (k + 2 - g)] == word[k + 2 - g];
        assert !SmeAt(word, k - g);
      } else {
        assert s[g + |word|] == 's';
      }
    }
  }

  /** After `/https://` the lazy group runs up to the first `<any>sme`. */
  lemma CategoryGroup(s: string, g: nat, m: nat)
    requires 1 <= m && g + m + 4 <= |s|
    requires forall k :: g <= k < g + m ==> s[k] != '\n'
    requires forall k: nat :: g + 2 <= k <= g + m ==> !SmeAt(s, k)
    requires s[g + m] != '\n' && SmeAt(s, g + m + 1)
    ensures GroupLength(CategoryPattern(), s, g, 1) == Some(m)
  {
    var p := CategoryPattern();
    forall k: nat | g + 1 <= k < g + m
      ensures !AtomsAt(p.after, s, k)
    {
      CategoryAfterAt(s, k);
      assert !SmeAt(s, k + 1);
    }
    GroupLengthSkip(p, s, g, 1, m);
    CategoryAfterAt(s, g + m);
  }

  /** The URL of an article on the news portal: `https://`, the section's
      host name, `.sme.sk/c/`, the article's number, `/` and the rest. */
  function ArticleUrl(category: string, index: string, rest: string): string {
    "https://" + category + ".sme.sk/c/" + index + "/" + rest
  }

  /** The URL of a snapshot of `original` as the Wayback Machine's
      availability API reports it, which is how the URL file holds them. */
  function SnapshotUrl(timestamp: string, original: string): string {
    "http://web.archive.org/web/" + timestamp + "/" + original
  }

  /** A string of decimal digits. */
  predicate IsDigits(s: string) {
    forall k :: 0 <= k < |s| ==> '0' <= s[k] <= '9'
  }

  /** The article identity of every snapshot of an article URL: the number
      after `/c/` and the section's host name, whenever the number holds no
      `/` and the host name holds no `/`, no newline and no `sme` from its
      third character on (the unescaped `.` of `.sme` would cut it short
      there, see `CategoryWildcardExample`; an `sme` at the first or second
      character is harmless, see `SmenaExample`). */
  lemma SnapshotIdentity(timestamp: string, category: string, index: string, rest: string)
    requires IsDigits(timestamp)
    requires |category| >= 1 && '\n' !in category && '/' !in category
    requires forall k: nat :: 2 <= k < |category| ==> !SmeAt(category + ['.'], k)
    requires |index| >= 1 && '/' !in index && '\n' !in index
    ensures ArticleIdentity(SnapshotUrl(timestamp, ArticleUrl(category, index, rest))) == Some(Identity(index, category))
  {
    SnapshotIndex(timestamp, category, index, rest);
    SnapshotCategory(timestamp, category, index, rest);
  }

  /** The fixed part of a snapshot URL. */
  lemma WaybackPairs(w: string)
    requires w == "http://web.archive.org/web/"
    ensures NoPair(w, 'c', '/') && NoPair(w, '/', 'h')
    ensures |w| > 0 && w[|w| - 1] == '/'
  {
  }

  /** Digits hold neither pair. */
  lemma DigitPairs(ts: string)
    requires IsDigits(ts)
    ensures NoPair(ts, 'c', '/') && NoPair(ts, '/', 'h')
    ensures |ts| > 0 ==> ts[|ts| - 1] != 'c' && ts[0] != 'h'
  {
    forall k | 0 <= k < |ts| - 1
      ensures !(ts[k] == 'c' && ts[k + 1] == '/') && !(ts[k] == '/' && ts[k + 1] == 'h')
    {
      assert '0' <= ts[k] <= '9';
    }
    if |ts| > 0 {
      assert '0' <= ts[|ts| - 1] <= '9' && '0' <= ts[0] <= '9';
    }
  }

  /** No "c/" occurs in a snapshot URL before the article path. */
  lemma SnapshotHostPairs(timestamp: string, category: string)
    requires IsDigits(timestamp)
    requires '/' !in category
    ensures NoPair("http://web.archive.org/web/" + timestamp + "/https://" + category + ".sme.sk/", 'c', '/')
  {
    var w := "http://web.archive.org/web/";
    var https := "/https://";
    var host := ".sme.sk/";
    WaybackPairs(w);
    DigitPairs(timestamp);
    NoPairAppend(w, timestamp, 'c', '/');
    var a := w + timestamp;
    assert a[|a| - 1] == (if |timestamp| > 0 then timestamp[|timestamp| - 1] else '/');
    assert NoPair(https, 'c', '/');
    NoPairAppend(a, https, 'c', '/');
    forall k | 0 <= k < |category| - 1
      ensures !(category[k] == 'c' && category[k + 1] == '/')
    {
      assert category[k + 1] in category;
    }
    NoPairAppend(a + https, category, 'c', '/');
    assert NoPair(host, 'c', '/');
    NoPairAppend(a + https + category, host, 'c', '/');
  }

  /** The index part of `SnapshotIdentity`. */
  lemma SnapshotIndex(timestamp: string, category: string, index: string, rest: string)
    requires IsDigits(timestamp)
    requires |category| >= 1 && '/' !in category
    requires |index| >= 1 && '/' !in index && '\n' !in index
    ensures Search(IndexPattern(), SnapshotUrl(timestamp, ArticleUrl(category, index, rest))) == Some(index)
  {
    var p := "http://web.archive.org/web/" + timestamp + "/https://" + category + ".sme.sk/";
    SnapshotHostPairs(timestamp, category);
    IndexOfUrl(p, index, rest);
    assert p + "c/" + index + "/" + rest == SnapshotUrl(timestamp, ArticleUrl(category, index, rest));
  }

  /** The category part of `SnapshotIdentity`. */
  lemma SnapshotCategory(timestamp: string, category: string, index: string, rest: string)
    requires IsDigits(timestamp)
    requires |category| >= 1 && '\n' !in category
    requires forall k: nat :: 2 <= k < |category| ==> !SmeAt(category + ['.'], k)
    ensures Search(CategoryPattern(), SnapshotUrl(timestamp, ArticleUrl(category, index, rest))) == Some(category)
  {
    var w := "http://web.archive.org/web/";
    WaybackPairs(w);
    DigitPairs(timestamp);
    NoPairAppend(w, timestamp, '/', 'h');
    var after := ".sme.sk/c/" + index + "/" + rest;
    assert after[..1] == ['.'] && SmeAt(after, 1);
    CategoryOfUrl(w + timestamp, category, after);
    assert ArticleUrl(category, index, rest) == "https://" + category + after;
  }

  /** A snapshot as the availability API reports it yields index
      `22123456` and category `domov`. */
  lemma IdentityExample()
    ensures ArticleIdentity(SnapshotUrl("20190320101553", ArticleUrl("domov", "22123456", "x.html")))
         == Some(Identity("22123456", "domov"))
  {
    ExampleParts("20190320101553", "domov", "22123456");
    SnapshotIdentity("20190320101553", "domov", "22123456", "x.html");
  }

  lemma ExampleParts(timestamp: string, category: string, index: string)
    requires timestamp == "20190320101553" && category == "domov" && index == "22123456"
    ensures IsDigits(timestamp)
    ensures |category| >= 1 && '\n' !in category && '/' !in category
    ensures forall k: nat :: k < |category| ==> !SmeAt(category + ['.'], k)
    ensures |index| >= 1 && '/' !in index && '\n' !in index
  {
  }

  /** A host name that itself starts with `sme` is found whole: the lazy
      group holds at least one character, so the `sme` at its start is
      never the one after the wildcard. */
  lemma SmenaExample()
    ensures ArticleIdentity(SnapshotUrl("20190320101553", ArticleUrl("smena", "1", "x")))
         == Some(Identity("1", "smena"))
  {
    SmenaParts("20190320101553", "smena", "1");
    SnapshotIdentity("20190320101553", "smena", "1", "x");
  }

  lemma SmenaParts(timestamp: string, category: string, index: string)
    requires timestamp == "20190320101553" && category == "smena" && index == "1"
    ensures IsDigits(timestamp)
    ensures |category| >= 1 && '\n' !in category && '/' !in category
    ensures forall k: nat :: 2 <= k < |category| ==> !SmeAt(category + ['.'], k)
    ensures |index| >= 1 && '/' !in index && '\n' !in index
  {
  }

  /** The wildcard before `sme` matches any character: in a snapshot of
      `https://domovsme.sk/c/1/` the category stops one letter early. */
  lemma CategoryWildcardExample()
    ensures Search(CategoryPattern(), SnapshotUrl("20190320101553", "https://" + "domo" + "vsme.sk/c/1/")) == Some("domo")
  {
    WildcardParts("http://web.archive.org/web/20190320101553", "domo", "vsme.sk/c/1/");
    CategoryOfUrl("http://web.archive.org/web/20190320101553", "domo", "vsme.sk/c/1/");
  }

  lemma WildcardParts(prefix: string, category: string, after: string)
    requires prefix == "http://web.archive.org/web/20190320101553" && category == "domo" && after == "vsme.sk/c/1/"
    ensures NoPair(prefix, '/', 'h')
    ensures "http://web.archive.org/web/" + "20190320101553" == prefix
    ensures |category| >= 1 && '\n' !in category
    ensures |after| >= 4 && after[0] != '\n' && SmeAt(after, 1)
    ensures forall k: nat :: k < |category| ==> !SmeAt(category + after[..1], k)
  {
  }

  /* ---------------------------------------------------------------------- */
  /* parse_html                                                              */
  /* ---------------------------------------------------------------------- */

  /** `is_premium_page`: some `div` carries the class `editorial-promo`. */
  predicate IsPremiumPage(page: seq<Node>, classTest: ClassTest) {
    |FindAll(page, "div", HasClass(classTest, "editorial-promo"))| != 0
  }

  function Headings(page: seq<Node>, classTest: ClassTest): seq<Node> {
    FindAll(page, "div", HasClass(classTest, "article-heading"))
  }

  function Perexes(page: seq<Node>, classTest: ClassTest): seq<Node> {
    FindAll(page, "p", HasClass(classTest, "perex"))
  }

  function Articles(page: seq<Node>): seq<Node> {
    FindAll(page, "article", AnyAttrs())
  }

  /** The text of the paragraphs that carry no attribute, in order. */
  function PlainTexts(paragraphs: seq<Node>): (texts: seq<string>)
    ensures |texts| <= |paragraphs|
  {
    if |paragraphs| == 0 then []
    else
      var rest := PlainTexts(paragraphs[1..]);
      if paragraphs[0].Element? && paragraphs[0].attrs == map[] then [TextOf(paragraphs[0])] + rest else rest
  }

  /** One paragraph contributes its text exactly when it is an element
      without attributes. */
  lemma PlainTextsOfOne(n: Node)
    ensures PlainTexts([n]) == if n.Element? && n.attrs == map[] then [TextOf(n)] else []
  {
    assert [n][1..] == [];
  }

  /** The comprehension works paragraph by paragraph: the texts of two runs
      of paragraphs are those of the first run, then those of the second. */
  lemma {:induction false} PlainTextsAppend(a: seq<Node>, b: seq<Node>)
    ensures PlainTexts(a + b) == PlainTexts(a) + PlainTexts(b)
  {
    if |a| == 0 {
      assert a + b == b;
    } else {
      assert (a + b)[0] == a[0];
      assert (a + b)[1..] == a[1..] + b;
      PlainTextsAppend(a[1..], b);
    }
  }

  /** Filtering the `p` elements for attribute-free ones after `findAll`
      keeps the same elements as asking `findAll` for attribute-free `p`
      elements in the first place. */
  lemma {:induction false} PlainTextsSelect(ds: seq<Node>)
    ensures PlainTexts(Select(ds, "p", AnyAttrs())) == TextsOf(Select(ds, "p", NoAttrs()))
  {
    if |ds| > 0 {
      PlainTextsSelect(ds[1..]);
      PlainTextsStep(ds[0], Select(ds[1..], "p", AnyAttrs()), Select(ds[1..], "p", NoAttrs()));
      SelectStep(ds, "p", AnyAttrs());
      SelectStep(ds, "p", NoAttrs());
    }
  }

  /** One more node in front of the two selections. */
  lemma PlainTextsStep(n: Node, all: seq<Node>, plain: seq<Node>)
    requires PlainTexts(all) == TextsOf(plain)
    ensures var isP := n.Element? && n.name == "p";
      PlainTexts((if isP then [n] else []) + all)
      == TextsOf((if isP && n.attrs == map[] then [n] else []) + plain)
  {
    if n.Element? && n.name == "p" {
      assert ([n] + all)[1..] == all;
      if n.attrs == map[] {
        assert TextsOf([n] + plain) == [TextOf(n)] + TextsOf(plain);
      } else {
        assert [] + plain == plain;
      }
    } else {
      assert [] + all == all;
      assert [] + plain == plain;
    }
  }
  datatype Article = Article(title: string, introduction: string, document: string)

  /** `parse_html`. The premium marker is tested first; a missing heading or
      perex is an `IndexError` (indexing an empty result), a missing
      `article` an `AttributeError` (`None.findAll`). */
  function ParseHtml(page: seq<Node>, classTest: ClassTest): (r: Result<Article, Exc>)
    ensures r == Failure(PremiumSiteError) <==> IsPremiumPage(page, classTest)
    ensures r.Success? <==>
      && !IsPremiumPage(page, classTest)
      && |Headings(page, classTest)| > 0 && |Perexes(page, classTest)| > 0 && |Articles(page)| > 0
    ensures r == Failure(IndexError) <==>
      !IsPremiumPage(page, classTest) && (|Headings(page, classTest)| == 0 || |Perexes(page, classTest)| == 0)
    ensures r == Failure(AttributeError) <==>
      && !IsPremiumPage(page, classTest)
      && |Headings(page, classTest)| > 0 && |Perexes(page, classTest)| > 0 && |Articles(page)| == 0
    ensures r.Failure? ==> r.error in {PremiumSiteError, IndexError, AttributeError}
    ensures r.Success? ==>
      && r.value.title == TextOf(Headings(page, classTest)[0])
      && r.value.introduction == TextOf(Perexes(page, classTest)[0])
  {
    if IsPremiumPage(page, classTest) then Failure(PremiumSiteError)
    else
      var headings := Headings(page, classTest);
      if |headings| == 0 then Failure(IndexError)
      else
        var perexes := Perexes(page, classTest);
        if |perexes| == 0 then Failure(IndexError)
        else
          var articles := Articles(page);
          if |articles| == 0 then Failure(AttributeError)
          else
            var paragraphs := FindAll(articles[0].children, "p", AnyAttrs());
            Success(Article(TextOf(headings[0]), TextOf(perexes[0]), Join(" ", PlainTexts(paragraphs))))
  }

  /** The body of a parsed page is the text of every attribute-free `p`
      element below the first `article`, in document order, one space
      apart. */
  lemma DocumentIsFirstArticlesPlainParagraphs(page: seq<Node>, classTest: ClassTest)
    ensures var r := ParseHtml(page, classTest);
      r.Success? ==>
        && |Articles(page)| > 0
        && r.value.document == Join(" ", TextsOf(FindAll(Articles(page)[0].children, "p", NoAttrs())))
  {
    if ParseHtml(page, classTest).Success? {
      PlainTextsSelect(Descendants(Articles(page)[0].children));
    }
  }

  /** Content placed after a page that parses does not change what is
      extracted, unless it carries the premium marker: heading, perex and
      body all come from the first matches in document order. */
  lemma ParseHtmlIgnoresLaterContent(page: seq<Node>, extra: seq<Node>, classTest: ClassTest)
    requires ParseHtml(page, classTest).Success?
    requires !IsPremiumPage(extra, classTest)
    ensures ParseHtml(page + extra, classTest) == ParseHtml(page, classTest)
  {
    FindAllAppend(page, extra, "div", HasClass(classTest, "editorial-promo"));
    FindAllAppend(page, extra, "div", HasClass(classTest, "article-heading"));
    FindAllAppend(page, extra, "p", HasClass(classTest, "perex"));
    FindAllAppend(page, extra, "article", AnyAttrs());
    assert Headings(page + extra, classTest)[0] == Headings(page, classTest)[0];
    assert Perexes(page + extra, classTest)[0] == Perexes(page, classTest)[0];
    assert Articles(page + extra)[0] == Articles(page)[0];
  }

  /* ---------------------------------------------------------------------- */
  /* preprocess_warchived_url                                                */
  /* ---------------------------------------------------------------------- */

  /** What `requests.get(url)` gave: a response (`ok` is a status below 400) with
      its parsed page, or a `RequestException`. */
  datatype Fetch = Response(ok: bool, page: seq<Node>) | TransportFault

  /** The one observable consequence of handling a URL. */
  datatype Effect =
    | WroteRecord(fileName: string, record: Value)
    | AppendedFailed(url: string)
    | AppendedPremium(url: string)
    | LoggedOnly(caught: Exc)
    | Raised(escaped: Exc)

  /** The `except` clauses of the handler, top to bottom. */
  const HandlerClauses: seq<Exc> := [RequestException, PremiumSiteError, ValueError, IndexError, AttributeError]

  /** The record: the three extracted fields, then `category` and `url`
      added by item assignment. */
  function Record(a: Article, category: string, url: string): Value {
    var fields := [Field("title", VStr(a.title)), Field("introduction", VStr(a.introduction)), Field("document", VStr(a.document))];
    VDict(SetItem(SetItem(fields, "category", VStr(category)), "url", VStr(url)))
  }

  /** The body of the `try` statement: the record, or the exception raised. */
  function TryBody(url: string, fetch: Fetch, category: string, classTest: ClassTest): Result<Value, Exc> {
    match fetch
    case TransportFault => Failure(RequestException)
    case Response(ok, page) =>
      if !ok then Failure(ValueError)
      else
        var article :- ParseHtml(page, classTest);
        Success(Record(article, category, url))
  }

  /** `preprocess_warchived_url(url)`, the random sleep left out. */
  function PreprocessArchivedUrl(url: string, fetch: Fetch, classTest: ClassTest): (eff: Effect)
    ensures ArticleIdentity(url).None? ==> eff == Raised(ValueError)
    ensures eff.Raised? <==> ArticleIdentity(url).None?
  {
    match ArticleIdentity(url)
    case None => Raised(ValueError)
    case Some(id) =>
      match TryBody(url, fetch, id.category, classTest)
      case Success(record) => WroteRecord(id.index + ".json", record)
      case Failure(e) =>
        HandlerClauseIndices(HandlerClauses);
        match HandlingClause(HandlerClauses, e)
        case None => Raised(e)
        case Some(0) => AppendedFailed(url)
        case Some(1) => AppendedPremium(url)
        case Some(_) => LoggedOnly(e)
  }

  /** Where the handler writes. */
  datatype ParserConfig = ParserConfig(recordDir: string, failedSink: Path, premiumSink: Path)

  /** The effect on the file system: a record is written in mode `'w'`, a
      URL is appended verbatim (it still carries the newline `readline` left
      on it) in mode `'a'`. */
  function ApplyEffect(fs: FileSystem, cfg: ParserConfig, eff: Effect, dump: Value -> string): FileSystem {
    match eff
    case WroteRecord(name, record) => WriteJson(fs, record, Path(cfg.recordDir, name), Overwrite, dump)
    case AppendedFailed(url) => WriteFile(fs, url, cfg.failedSink, Append)
    case AppendedPremium(url) => WriteFile(fs, url, cfg.premiumSink, Append)
    case LoggedOnly(_) => fs
    case Raised(_) => fs
  }

  /** How each outcome of fetch and parse is routed, for a URL with an
      identity. */
  lemma RoutingTable(url: string, fetch: Fetch, classTest: ClassTest)
    requires ArticleIdentity(url).Some?
    ensures var id := ArticleIdentity(url).value;
      var eff := PreprocessArchivedUrl(url, fetch, classTest);
      match fetch
      case TransportFault => eff == AppendedFailed(url)
      case Response(false, _) => eff == LoggedOnly(ValueError)
      case Response(true, page) =>
        match ParseHtml(page, classTest)
        case Success(a) => eff == WroteRecord(id.index + ".json", Record(a, id.category, url))
        case Failure(PremiumSiteError) => eff == AppendedPremium(url)
        case Failure(e) => eff == LoggedOnly(e) && (e == IndexError || e == AttributeError)
  {
    HandlerClauseIndices(HandlerClauses);
  }

  /** The clause each exception of the `try` body lands in. */
  lemma HandlerClauseIndices(clauses: seq<Exc>)
    requires clauses == HandlerClauses
    ensures HandlingClause(clauses, RequestException) == Some(0)
    ensures HandlingClause(clauses, PremiumSiteError) == Some(1)
    ensures HandlingClause(clauses, ValueError) == Some(2)
    ensures HandlingClause(clauses, IndexError) == Some(3)
    ensures HandlingClause(clauses, AttributeError) == Some(4)
  {
    var c1 := clauses[1..];
    var c2 := c1[1..];
    var c3 := c2[1..];
    var c4 := c3[1..];
    assert c4 == [AttributeError];
    assert c3 == [IndexError] + c4;
    assert c2 == [ValueError] + c3;
    assert c1 == [PremiumSiteError] + c2;
    assert HandlingClause(c4, AttributeError) == Some(0);
    assert HandlingClause(c3, AttributeError) == Some(1);
    assert HandlingClause(c3, IndexError) == Some(0);
    assert HandlingClause(c2, IndexError) == Some(1);
    assert HandlingClause(c2, AttributeError) == Some(2);
  }

  /** `PremiumSiteError` is a `ValueError`, yet goes to the premium sink:
      its clause comes before the `ValueError` clause. With the two clauses
      swapped it would only be logged. */
  lemma PremiumClauseComesFirst()
    ensures IsInstance(PremiumSiteError, ValueError)
    ensures HandlingClause(HandlerClauses, PremiumSiteError) == Some(1)
    ensures HandlingClause([RequestException, ValueError, PremiumSiteError, IndexError, AttributeError], PremiumSiteError) == Some(1)
  {
  }

  /** The record has the keys `title`, `introduction`, `document`,
      `category`, `url`, in that order, and carries the category and URL. */
  lemma RecordKeys(a: Article, category: string, url: string)
    ensures Record(a, category, url).VDict?
    ensures Keys(Record(a, category, url).fields) == ["title", "introduction", "document", "category", "url"]
    ensures Field("category", VStr(category)) in Record(a, category, url).fields
    ensures Field("url", VStr(url)) in Record(a, category, url).fields
    ensures Field("title", VStr(a.title)) in Record(a, category, url).fields
    ensures Field("introduction", VStr(a.introduction)) in Record(a, category, url).fields
    ensures Field("document", VStr(a.document)) in Record(a, category, url).fields
  {
    var fields := [Field("title", VStr(a.title)), Field("introduction", VStr(a.introduction)), Field("document", VStr(a.document))];
    assert Keys(fields) == ["title", "introduction", "document"];
    var withCategory := SetItem(fields, "category", VStr(category));
    assert Keys(withCategory) == ["title", "introduction", "document", "category"];
    var record := SetItem(withCategory, "url", VStr(url));
    assert Keys(record) == ["title", "introduction", "document", "category", "url"];
    assert withCategory[3] == Field("category", VStr(category)) by {
      assert withCategory[3].key == "category";
    }
    assert record[3] == withCategory[3] && record[0] == fields[0];
    assert record[1] == fields[1] && record[2] == fields[2];
  }

  /** A record is written exactly for an ok response, whose page parses,
      to a URL with an identity; it is named after the index and holds the
      five keys. */
  lemma RecordShape(url: string, fetch: Fetch, classTest: ClassTest)
    ensures PreprocessArchivedUrl(url, fetch, classTest).WroteRecord? <==>
      && ArticleIdentity(url).Some?
      && fetch.Response? && fetch.ok
      && ParseHtml(fetch.page, classTest).Success?
    ensures var eff := PreprocessArchivedUrl(url, fetch, classTest);
      eff.WroteRecord? ==>
        && eff.fileName == ArticleIdentity(url).value.index + ".json"
        && eff.record.VDict?
        && Keys(eff.record.fields) == ["title", "introduction", "document", "category", "url"]
        && Field("category", VStr(ArticleIdentity(url).value.category)) in eff.record.fields
        && Field("url", VStr(url)) in eff.record.fields
  {
    if PreprocessArchivedUrl(url, fetch, classTest).WroteRecord? {
      var id := ArticleIdentity(url).value;
      var a := ParseHtml(fetch.page, classTest).value;
      RecordKeys(a, id.category, url);
    }
  }

  /** Each URL changes at most one file: the record file is overwritten
      with the dumped record, a sink gets the URL appended, and a URL that
      is only logged, or whose exception escapes, changes nothing. */
  lemma OneEffectPerUrl(fs: FileSystem, cfg: ParserConfig, url: string, fetch: Fetch, classTest: ClassTest, dump: Value -> string)
    ensures var eff := PreprocessArchivedUrl(url, fetch, classTest);
      var fs' := ApplyEffect(fs, cfg, eff, dump);
      match eff
      case WroteRecord(name, record) => fs' == fs[Path(cfg.recordDir, name) := dump(record)]
      case AppendedFailed(u) => u == url && fs' == fs[cfg.failedSink := Content(fs, cfg.failedSink) + url]
      case AppendedPremium(u) => u == url && fs' == fs[cfg.premiumSink := Content(fs, cfg.premiumSink) + url]
      case _ => fs' == fs
  {
    var eff := PreprocessArchivedUrl(url, fetch, classTest);
    AppendedUrlIsOwn(url, fetch, classTest);
    EffectOnFiles(fs, cfg, eff, dump);
  }

  /** A sink only ever receives the URL being processed. */
  lemma AppendedUrlIsOwn(url: string, fetch: Fetch, classTest: ClassTest)
    ensures var eff := PreprocessArchivedUrl(url, fetch, classTest);
      (eff.AppendedFailed? ==> eff.url == url) && (eff.AppendedPremium? ==> eff.url == url)
  {
  }

  /** The files an effect changes. */
  lemma EffectOnFiles(fs: FileSystem, cfg: ParserConfig, eff: Effect, dump: Value -> string)
    ensures var fs' := ApplyEffect(fs, cfg, eff, dump);
      match eff
      case WroteRecord(name, record) => fs' == fs[Path(cfg.recordDir, name) := dump(record)]
      case AppendedFailed(u) => fs' == fs[cfg.failedSink := Content(fs, cfg.failedSink) + u]
      case AppendedPremium(u) => fs' == fs[cfg.premiumSink := Content(fs, cfg.premiumSink) + u]
      case _ => fs' == fs
  {
  }
}
