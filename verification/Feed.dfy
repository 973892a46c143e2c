/** The feed: newest first, a hundred a page, each page resuming strictly below the last post shown,
    and one boundary between what is new since the last visit and what was seen. */
module Feed {
  import opened Wrappers
  import Text

  /** A post's place in the feed. */
  datatype Key = Key(created: int, id: nat)

  const PAGE_SIZE := 100
  const MAX_POST_ID := 0x7FFF_FFFF_FFFF_FFFF

  predicate Less(a: Key, b: Key) {
    a.created < b.created || (a.created == b.created && a.id < b.id)
  }

  /** Newest first, no two in one place. */
  ghost predicate Descending(s: seq<Key>) {
    forall i, j | 0 <= i < j < |s| :: Less(s[j], s[i])
  }

  /** What the keyset query leaves: everything, or what is strictly below the cursor. */
  function Below(view: set<Key>, cursor: Option<Key>): set<Key> {
    set p | p in view && (cursor.Some? ==> Less(p, cursor.value))
  }

  ghost function Newest(s: set<Key>): (top: Key)
    requires s != {}
    ensures top in s && forall p | p in s && p != top :: Less(p, top)
  {
    NewestExists(s);
    var top :| top in s && forall p | p in s && p != top :: Less(p, top);
    top
  }

  lemma {:induction false} NewestExists(s: set<Key>)
    requires s != {}
    ensures exists top :: top in s && forall p | p in s && p != top :: Less(p, top)
  {
    var x :| x in s;
    var rest := s - {x};
    assert forall p | p in s :: p == x || p in rest;
    var top := x;
    if rest != {} {
      NewestExists(rest);
      var best :| best in rest && forall p | p in rest && p != best :: Less(p, best);
      if Less(x, best) { top := best; }
    }
    assert forall p | p in s && p != top :: Less(p, top);
  }

  /** `order_by("-created_at", "-id")` */
  ghost function Ordered(s: set<Key>): seq<Key> {
    if s == {} then [] else [Newest(s)] + Ordered(s - {Newest(s)})
  }

  lemma {:induction false} OrderedIsTheSet(s: set<Key>)
    ensures Descending(Ordered(s)) && |Ordered(s)| == |s|
    ensures forall p :: p in Ordered(s) <==> p in s
  {
    if s != {} {
      OrderedIsTheSet(s - {Newest(s)});
    }
  }

  /** There is one descending order of a set. */
  lemma {:induction false} OrderIsUnique(s: set<Key>, q: seq<Key>)
    requires Descending(q) && forall p :: p in q <==> p in s
    ensures q == Ordered(s)
  {
    assert forall i | 0 <= i < |q| :: q[i] in s;
    assert q != [] ==> q[0] in s;
    if s == {} {
    } else {
      var top := Newest(s);
      assert top in q && q[0] in s;
      assert q[0] == top;
      var rest := q[1..];
      forall p ensures p in rest <==> p in s - {top} {
        if p in s - {top} {
          var j :| 0 <= j < |q| && q[j] == p;
          assert rest[j - 1] == p;
        }
      }
      OrderIsUnique(s - {top}, rest);
      assert q == [top] + rest;
    }
  }

  /** In a descending sequence a post is above the cut exactly when it is not below the n-th. */
  lemma AboveTheCut(all: seq<Key>, n: nat, j: nat)
    requires Descending(all) && 0 < n <= |all| && j < |all|
    ensures j < n <==> !Less(all[j], all[n - 1])
  {
  }

  lemma TopOfTheCut(all: seq<Key>, n: nat, p: Key)
    requires Descending(all) && 0 < n <= |all| && p in all
    ensures p in all[..n] <==> !Less(p, all[n - 1])
    ensures p in all[n..] <==> Less(p, all[n - 1])
  {
    var j :| 0 <= j < |all| && all[j] == p;
    AboveTheCut(all, n, j);
    if k :| 0 <= k < n && all[k] == p {
      AboveTheCut(all, n, k);
    }
    if k :| n <= k < |all| && all[k] == p {
      AboveTheCut(all, n, k);
    }
    assert j < n ==> all[..n][j] == p;
    assert n <= j ==> all[n..][j - n] == p;
  }

  /** Cutting the order after n posts leaves the order of what is below the n-th. */
  lemma OrderedCut(s: set<Key>, n: nat)
    requires 0 < n < |s|
    ensures |Ordered(s)| == |s|
    ensures var last := Ordered(s)[n - 1];
            && Ordered(s)[n..] == Ordered(Below(s, Some(last)))
            && (forall p | p in s :: p in Ordered(s)[..n] <==> !Less(p, last))
  {
    OrderedIsTheSet(s);
    var all := Ordered(s);
    var last, rest := all[n - 1], all[n..];
    forall p | p in s
      ensures p in all[..n] <==> !Less(p, last)
      ensures p in rest <==> Less(p, last)
    {
      TopOfTheCut(all, n, p);
    }
    assert forall p | p in rest :: p in all;
    OrderIsUnique(Below(s, Some(last)), rest);
  }

  datatype Page = Page(posts: seq<Key>, older: Option<Key>)

  /** One request: one row more than a page is fetched, only to answer whether there is more. */
  ghost function PageOf(view: set<Key>, cursor: Option<Key>): Page {
    var all := Ordered(Below(view, cursor));
    var page := if |all| <= PAGE_SIZE + 1 then all else all[..PAGE_SIZE + 1];
    var hasOlder := |page| > PAGE_SIZE;
    var posts := if hasOlder then page[..PAGE_SIZE] else page;
    Page(posts, if hasOlder then Some(posts[|posts| - 1]) else None)
  }

  /** A page shows the top of what is left and names the end exactly when nothing is left below. */
  lemma PageShowsTheTop(view: set<Key>, cursor: Option<Key>)
    ensures var pg := PageOf(view, cursor);
            && (pg.older.Some? ==> pg.posts + Ordered(Below(view, pg.older)) == Ordered(Below(view, cursor)))
            && (pg.older.None? ==> pg.posts == Ordered(Below(view, cursor)))
            && (pg.older.None? <==> forall p | p in Below(view, cursor) :: p in pg.posts)
            && (pg.older.Some? ==> |pg.posts| == PAGE_SIZE && pg.older.value == pg.posts[PAGE_SIZE - 1]
                                   && (cursor.Some? ==> Less(pg.older.value, cursor.value)))
            && Descending(pg.posts)
            && (forall p | p in pg.posts :: p in Below(view, cursor))
            && (pg.older.Some? ==> forall p | p in Below(view, cursor) && p !in pg.posts :: p in Below(view, pg.older))
  {
    var left := Below(view, cursor);
    OrderedIsTheSet(left);
    PageIsACut(view, cursor);
    if |left| > PAGE_SIZE {
      CutPage(view, cursor);
      assert PageOf(view, cursor).posts == Ordered(left)[..PAGE_SIZE];
    } else {
      assert PageOf(view, cursor) == Page(Ordered(left), None);
    }
  }

  /** Where there is more than a page: the page, and what is below its last post, make up the whole. */
  lemma CutPage(view: set<Key>, cursor: Option<Key>)
    requires |Below(view, cursor)| > PAGE_SIZE
    ensures |Ordered(Below(view, cursor))| > PAGE_SIZE
    ensures var left, all := Below(view, cursor), Ordered(Below(view, cursor));
            var posts, last := all[..PAGE_SIZE], all[PAGE_SIZE - 1];
            && posts + Ordered(Below(view, Some(last))) == all
            && last in left && all[PAGE_SIZE] in left && all[PAGE_SIZE] !in posts
            && Descending(posts)
            && (forall p | p in posts :: p in left)
            && (forall p | p in left && p !in posts :: p in Below(view, Some(last)))
  {
    var left, all := Below(view, cursor), Ordered(Below(view, cursor));
    OrderedIsTheSet(left);
    OrderedCut(left, PAGE_SIZE);
    var last := all[PAGE_SIZE - 1];
    assert all == all[..PAGE_SIZE] + all[PAGE_SIZE..];
    assert last in left && all[PAGE_SIZE] in left;
    assert Less(all[PAGE_SIZE], last);
    assert Below(left, Some(last)) == Below(view, Some(last));
  }

  lemma PageIsACut(view: set<Key>, cursor: Option<Key>)
    ensures var all := Ordered(Below(view, cursor));
            PageOf(view, cursor) == if |all| > PAGE_SIZE then Page(all[..PAGE_SIZE], Some(all[PAGE_SIZE - 1]))
                                    else Page(all, None)
  {
    var all := Ordered(Below(view, cursor));
    if |all| > PAGE_SIZE + 1 {
      assert all[..PAGE_SIZE + 1][..PAGE_SIZE] == all[..PAGE_SIZE];
    }
  }

  /** In times and ids: a page comes newest first, ties by the higher id; and it leaves out of what was below
      the cursor only posts older than its last, or as old with a lower id. */
  lemma PageIsNewestFirst(view: set<Key>, cursor: Option<Key>)
    ensures var pg := PageOf(view, cursor);
            && |pg.posts| <= 100 && (pg.older.Some? ==> |pg.posts| == 100)
            && (forall i, j | 0 <= i < j < |pg.posts| ::
                  || pg.posts[j].created < pg.posts[i].created
                  || (pg.posts[j].created == pg.posts[i].created && pg.posts[j].id < pg.posts[i].id))
            && (forall p | p in pg.posts :: p in view)
            && (forall p | p in view && p !in pg.posts ::
                  || (cursor.Some? && (p.created > cursor.value.created
                                       || (p.created == cursor.value.created && p.id >= cursor.value.id)))
                  || (pg.posts != [] && var last := pg.posts[|pg.posts| - 1];
                        p.created < last.created || (p.created == last.created && p.id < last.id)))
  {
    PageShowsTheTop(view, cursor);
    PageIsACut(view, cursor);
    OrderedIsTheSet(Below(view, cursor));
    var pg := PageOf(view, cursor);
    forall i, j | 0 <= i < j < |pg.posts| ensures Less(pg.posts[j], pg.posts[i]) {
    }
    forall p | p in view && p !in pg.posts && p in Below(view, cursor)
      ensures pg.posts != [] && Less(p, pg.posts[|pg.posts| - 1])
    {
      assert pg.older.Some? && p in Below(view, pg.older);
    }
  }

  // ----- Following `older_cursor` while the family keeps posting -----

  /** Everything shown by following the cursor, when the k-th request sees `views[k]`. */
  ghost function Walk(views: seq<set<Key>>, cursor: Option<Key>): seq<Key> {
    if views == [] then []
    else
      var pg := PageOf(views[0], cursor);
      pg.posts + if pg.older.None? then [] else Walk(views[1..], pg.older)
  }

  /** The walk came to a page that names no older one. */
  ghost predicate Ends(views: seq<set<Key>>, cursor: Option<Key>) {
    views != [] && (PageOf(views[0], cursor).older.None? || Ends(views[1..], PageOf(views[0], cursor).older))
  }

  /** Whatever is posted or taken down between pages, nothing is shown twice and nothing out of order. */
  lemma {:induction false} WalkNeverRepeats(views: seq<set<Key>>, cursor: Option<Key>)
    ensures Descending(Walk(views, cursor))
    ensures cursor.Some? ==> forall p | p in Walk(views, cursor) :: Less(p, cursor.value)
    decreases |views|
  {
    if views != [] {
      var pg := PageOf(views[0], cursor);
      PageShowsTheTop(views[0], cursor);
      if pg.older.Some? {
        WalkNeverRepeats(views[1..], pg.older);
        DescendingJoin(pg.posts, Walk(views[1..], pg.older));
      }
    }
  }

  lemma DescendingJoin(a: seq<Key>, b: seq<Key>)
    requires Descending(a) && Descending(b) && a != []
    requires forall p | p in b :: Less(p, a[|a| - 1])
    ensures Descending(a + b)
  {
    forall i, j | 0 <= i < |a| && 0 <= j < |b| ensures Less(b[j], a[i]) {
      assert b[j] in b;
    }
  }

  /** And a post visible throughout is shown. */
  lemma {:induction false} WalkShowsWhatStays(views: seq<set<Key>>, cursor: Option<Key>, p: Key)
    requires Ends(views, cursor) && (forall v | v in views :: p in v) && (cursor.Some? ==> Less(p, cursor.value))
    ensures p in Walk(views, cursor)
    decreases |views|
  {
    var pg := PageOf(views[0], cursor);
    PageShowsTheTop(views[0], cursor);
    assert views[0] in views;
    assert p in Below(views[0], cursor);
    if p !in pg.posts {
      assert forall v | v in views[1..] :: v in views;
      WalkShowsWhatStays(views[1..], pg.older, p);
    }
  }

  /** Between requests only newer posts arrive: newer than everything that was there. */
  ghost predicate OnlyNewer(views: seq<set<Key>>) {
    forall k | 0 < k < |views| ::
      views[k - 1] <= views[k] && forall p, q | p in views[k] - views[k - 1] && q in views[k - 1] :: Less(q, p)
  }

  /** Then the walk is one descending list of exactly what was visible at the first request, each post
      once, and it ends after as many pages as that takes. */
  lemma {:induction false} WalkIsExact(views: seq<set<Key>>, cursor: Option<Key>)
    requires OnlyNewer(views) && views != [] && (cursor.Some? ==> cursor.value in views[0])
    requires |Below(views[0], cursor)| <= PAGE_SIZE * |views|
    ensures Ends(views, cursor) && Walk(views, cursor) == Ordered(Below(views[0], cursor))
    decreases |views|
  {
    var pg := PageOf(views[0], cursor);
    PageShowsTheTop(views[0], cursor);
    if pg.older.Some? {
      assert pg.older.value in pg.posts;
      OrderedIsTheSet(Below(views[0], cursor));
      OrderedIsTheSet(Below(views[0], pg.older));
      var next := views[1..];
      NewerStaysAbove(views, pg.older.value);
      WalkIsExact(next, pg.older);
    }
  }

  /** What arrives is above any post already there, so the rest of the walk does not see it. */
  lemma NewerStaysAbove(views: seq<set<Key>>, last: Key)
    requires OnlyNewer(views) && |views| > 1 && last in views[0]
    ensures Below(views[1], Some(last)) == Below(views[0], Some(last)) && last in views[1] && OnlyNewer(views[1..])
  {
    assert views[1 - 1] <= views[1];
    assert forall p | p in views[1] - views[1 - 1] :: Less(last, p);
    forall p | p in Below(views[1], Some(last)) ensures p in views[0] {
      assert p in views[1] - views[0] ==> Less(last, p);
    }
    var next := views[1..];
    forall k | 0 < k < |next|
      ensures next[k - 1] <= next[k] && forall p, q | p in next[k] - next[k - 1] && q in next[k - 1] :: Less(q, p)
    {
      assert next[k] == views[k + 1] && next[k - 1] == views[k];
      assert views[k + 1 - 1] <= views[k + 1];
    }
  }

  // ----- The printed cursor -----

  datatype Stamp = Aware(moment: int) | Naive

  /** `datetime.isoformat` and `datetime.fromisoformat`, as a pair that agrees on moments with a zone. */
  ghost predicate IsoPair(iso: int -> string, fromIso: string -> Option<Stamp>) {
    forall t :: fromIso(iso(t)) == Some(Aware(t))
  }

  function PrintCursor(iso: int -> string, p: Key): string {
    iso(p.created) + ['_'] + Text.Decimal(p.id)
  }

  /** Where `rpartition` cuts: the last occurrence of `c`. */
  function LastIndex(s: string, c: char): (k: Option<nat>)
    ensures k.Some? ==> k.value < |s| && s[k.value] == c && c !in s[k.value + 1..]
    ensures k.None? <==> c !in s
  {
    if s == "" then None
    else if s[|s| - 1] == c then Some(|s| - 1)
    else
      var k := LastIndex(s[..|s| - 1], c);
      assert s == s[..|s| - 1] + [s[|s| - 1]];
      assert k.Some? ==> s[k.value + 1..] == s[..|s| - 1][k.value + 1..] + [s[|s| - 1]];
      k
  }

  /** `int(text)` on a text without underscores: surrounding space, one sign, and decimal digits, no
      more than Python's conversion limit. */
  function ParseInt(text: string): Option<int> {
    var t := Text.Strip(text);
    var signed := t != "" && (t[0] == '-' || t[0] == '+');
    var digits := if signed then t[1..] else t;
    if digits == "" || |digits| > 4300 || exists c | c in digits :: !Text.IsDigit(c) then None
    else Some(if signed && t[0] == '-' then -(Text.DecimalValue(digits) as int) else Text.DecimalValue(digits))
  }

  /** A cursor, or None - page one - for anything malformed. */
  function ParseCursor(fromIso: string -> Option<Stamp>, raw: string): Option<Key> {
    var cut := LastIndex(raw, '_');
    if cut.None? then None
    else
      var stamp := fromIso(raw[..cut.value]);
      if stamp.None? || stamp.value.Naive? then None
      else
        var id := ParseInt(raw[cut.value + 1..]);
        if id.None? || id.value <= 0 || id.value > MAX_POST_ID then None
        else Some(Key(stamp.value.moment, id.value))
  }

  lemma {:induction false} DecimalLength(n: nat, digits: nat, bound: nat)
    requires bound == Pow10(digits) && n < bound && digits > 0
    ensures |Text.Decimal(n)| <= digits
    decreases digits
  {
    if n >= 10 {
      assert Pow10(digits) == 10 * Pow10(digits - 1);
      DecimalLength(n / 10, digits - 1, Pow10(digits - 1));
    }
  }

  function Pow10(k: nat): nat { if k == 0 then 1 else 10 * Pow10(k - 1) }

  lemma PostIdIsShort(n: nat)
    requires n <= MAX_POST_ID
    ensures |Text.Decimal(n)| <= 20
  {
    assert Pow10(5) == 1_00000;
    assert Pow10(10) == 1_0000000000;
    assert Pow10(15) == 1_000000000000000;
    assert Pow10(20) == 1_0000_0000_0000_0000_0000;
    DecimalLength(n, 20, Pow10(20));
  }

  /** Digits have nothing around them to strip. */
  lemma DigitsAreStripped(s: string)
    requires s != "" && forall c | c in s :: Text.IsDigit(c)
    ensures Text.Strip(s) == s
  {
    assert s[0] in s && s[|s| - 1] in s;
  }

  lemma ParseIntReadsDecimal(n: nat)
    requires n <= MAX_POST_ID
    ensures ParseInt(Text.Decimal(n)) == Some(n)
  {
    var s := Text.Decimal(n);
    PostIdIsShort(n);
    DigitsAreStripped(s);
    assert s[0] in s;
    Text.DecimalRoundTrip(n);
  }

  /** `rpartition` cuts a printed cursor where it was joined: the id has no underscore. */
  lemma CutWherePrinted(stamp: string, n: nat)
    ensures var raw := stamp + ['_'] + Text.Decimal(n);
            && LastIndex(raw, '_') == Some(|stamp|)
            && raw[..|stamp|] == stamp && raw[|stamp| + 1..] == Text.Decimal(n)
  {
    var id := Text.Decimal(n);
    var raw := stamp + ['_'] + id;
    assert raw[|stamp|] == '_';
    var cut := LastIndex(raw, '_').value;
    assert raw == raw[..cut] + ['_'] + raw[cut + 1..];
    Text.SplitAtLast(raw[..cut], raw[cut + 1..], stamp, id, '_');
  }

  /** The `older_cursor` a page prints names the very post it stopped at. */
  lemma CursorRoundTrip(iso: int -> string, fromIso: string -> Option<Stamp>, p: Key)
    requires IsoPair(iso, fromIso) && 0 < p.id <= MAX_POST_ID
    ensures ParseCursor(fromIso, PrintCursor(iso, p)) == Some(p)
  {
    CutWherePrinted(iso(p.created), p.id);
    ParseIntReadsDecimal(p.id);
  }

  /** A cursor is taken only if it is a moment with a zone, an underscore, and a post id that fits. */
  lemma OnlyWholeCursorsParse(fromIso: string -> Option<Stamp>, raw: string)
    ensures var c := ParseCursor(fromIso, raw);
            c.Some? ==>
              && 1 <= c.value.id <= 0x7FFF_FFFF_FFFF_FFFF
              && exists stamp, id :: raw == stamp + ['_'] + id && '_' !in id
                                     && fromIso(stamp) == Some(Aware(c.value.created))
                                     && ParseInt(id) == Some(c.value.id)
  {
    if ParseCursor(fromIso, raw).Some? {
      var cut := LastIndex(raw, '_').value;
      assert raw == raw[..cut] + ['_'] + raw[cut + 1..];
    }
  }

  // ----- New since the last visit -----

  predicate IsNew(p: Key, boundary: Option<int>) {
    boundary.Some? && p.created > boundary.value
  }

  /** `first_seen_id`: the first post already seen, when any on the page is new. It splits the page:
      everything above it is new, it and everything below were seen. */
  method FirstSeen(posts: seq<Key>, boundary: Option<int>) returns (split: Option<nat>)
    requires Descending(posts)
    ensures split.Some? ==>
              && 0 < split.value < |posts|
              && boundary.Some?
              && (forall i | 0 <= i < split.value :: posts[i].created > boundary.value)
              && (forall i | split.value <= i < |posts| :: posts[i].created <= boundary.value)
    ensures split.None? ==>
              || boundary.None?
              || (forall p | p in posts :: p.created > boundary.value)
              || (forall p | p in posts :: p.created <= boundary.value)
  {
    var anyNew := false;
    for k := 0 to |posts|
      invariant anyNew <==> exists i | 0 <= i < k :: IsNew(posts[i], boundary)
    {
      if IsNew(posts[k], boundary) { anyNew := true; }
    }
    if !anyNew { return None; }
    for k := 0 to |posts|
      invariant forall i | 0 <= i < k :: IsNew(posts[i], boundary)
    {
      if !IsNew(posts[k], boundary) {
        assert forall i | k < i < |posts| :: Less(posts[i], posts[k]);
        return Some(k);
      }
    }
    return None;
  }
}
