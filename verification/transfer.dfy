/** Transfer sizes by resource category (src/reports/transfer.js): every
    Resource Timing entry counts towards the total and towards exactly one
    of html, css, js, img or other, chosen by its initiator type and, for
    `link` and `css` initiators, by the extension of its URL's pathname. */
module Transfer {
  import opened Text

  /** One Resource Timing entry. `pathname` is the pathname of the entry's
      URL (`url.parse( entry.name ).pathname`), taken as given. */
  datatype Entry = Entry(transferSize: real, pathname: string, initiatorType: string)

  datatype Category = Html | Css | Js | Img | Other

  /** The keys of the `sizes` object: one per category, plus `total`. */
  datatype SizeKey = Part(category: Category) | Total

  /** `/\.(?:jpeg|jpg|gif|png|svg)$/`. */
  predicate IsImagePath(path: string) {
    EndsWith(path, ".jpeg") || EndsWith(path, ".jpg") || EndsWith(path, ".gif")
    || EndsWith(path, ".png") || EndsWith(path, ".svg")
  }

  /** `/\.(?:woff2|woff:ttf)$/`: `.woff2`, or the literal `.woff:ttf`
      (plain `.woff` and `.ttf` do not match). */
  predicate IsFontPath(path: string) {
    EndsWith(path, ".woff2") || EndsWith(path, ".woff:ttf")
  }

  /** The initiator types the `switch` names before its default branch. */
  predicate IsNamedInitiator(t: string) {
    t == "navigation" || t == "link" || t == "script" || t == "img" || t == "css"
  }

  /** The `switch ( entry.initiatorType )` of `getSizesFromEntries`. */
  function Classify(e: Entry): (c: Category)
    ensures c == Html <==> e.initiatorType == "navigation"
    ensures c == Js <==> e.initiatorType == "script"
    ensures c == Img <==>
      || e.initiatorType == "img"
      || ((e.initiatorType == "link" || e.initiatorType == "css") && IsImagePath(e.pathname))
    ensures c == Css <==>
      || (e.initiatorType == "link" && !IsImagePath(e.pathname))
      || (e.initiatorType == "css" && !IsImagePath(e.pathname) && !IsFontPath(e.pathname))
    ensures c == Other <==>
      || !IsNamedInitiator(e.initiatorType)
      || (e.initiatorType == "css" && !IsImagePath(e.pathname) && IsFontPath(e.pathname))
  {
    match e.initiatorType
    case "navigation" => Html
    case "link" => if IsImagePath(e.pathname) then Img else Css
    case "script" => Js
    case "img" => Img
    case "css" =>
      if IsImagePath(e.pathname) then Img
      else if IsFontPath(e.pathname) then Other
      else Css
    case _ => Other
  }

  /** The `sizes` object. */
  datatype Sizes = Sizes(html: real, css: real, js: real, img: real, other: real, total: real)

  const NoSizes := Sizes(0.0, 0.0, 0.0, 0.0, 0.0, 0.0)

  /** `sizes[ key ]`. */
  function Get(s: Sizes, key: SizeKey): real {
    match key
    case Total => s.total
    case Part(Html) => s.html
    case Part(Css) => s.css
    case Part(Js) => s.js
    case Part(Img) => s.img
    case Part(Other) => s.other
  }

  /** One iteration of the `forEach`: the size goes to the total and to the
      entry's category. */
  function AddEntry(s: Sizes, e: Entry): Sizes {
    AddSize(s, Classify(e), e.transferSize)
  }

  /** `sizes[ category ] += n; sizes.total += n`. */
  function AddSize(s: Sizes, c: Category, n: real): Sizes {
    var t := s.(total := s.total + n);
    match c
    case Html => t.(html := s.html + n)
    case Css => t.(css := s.css + n)
    case Js => t.(js := s.js + n)
    case Img => t.(img := s.img + n)
    case Other => t.(other := s.other + n)
  }

  /** The sum of all transfer sizes. */
  function TotalSize(entries: seq<Entry>): real {
    if |entries| == 0 then 0.0
    else TotalSize(entries[..|entries| - 1]) + entries[|entries| - 1].transferSize
  }

  /** Reference definition of a category's size: the transfer sizes of the
      entries classified into it, and nothing else. */
  function CategorySize(entries: seq<Entry>, c: Category): real {
    if |entries| == 0 then 0.0
    else
      var e := entries[|entries| - 1];
      CategorySize(entries[..|entries| - 1], c) + (if Classify(e) == c then e.transferSize else 0.0)
  }

  /** All entries folded in order. */
  function SizesOf(entries: seq<Entry>): Sizes {
    if |entries| == 0 then NoSizes
    else AddEntry(SizesOf(entries[..|entries| - 1]), entries[|entries| - 1])
  }

  /** The total is the sum of all sizes, and it equals the sum of the five
      categories, since every entry lands in exactly one of them. */
  lemma {:induction false} SizesOfTotal(entries: seq<Entry>)
    ensures SizesOf(entries).total == TotalSize(entries)
    ensures var s := SizesOf(entries); s.total == s.html + s.css + s.js + s.img + s.other
  {
    if |entries| > 0 {
      SizesOfTotal(entries[..|entries| - 1]);
    }
  }

  /** Each category holds exactly the sizes of the entries classified into it. */
  lemma {:induction false} SizesOfCategory(entries: seq<Entry>, c: Category)
    ensures Get(SizesOf(entries), Part(c)) == CategorySize(entries, c)
  {
    if |entries| > 0 {
      SizesOfCategory(entries[..|entries| - 1], c);
    }
  }

  /** A category nothing is classified into stays at 0. */
  lemma {:induction false} UnusedCategoryIsZero(entries: seq<Entry>, c: Category)
    requires forall i | 0 <= i < |entries| :: Classify(entries[i]) != c
    ensures Get(SizesOf(entries), Part(c)) == 0.0
  {
    if |entries| > 0 {
      UnusedCategoryIsZero(entries[..|entries| - 1], c);
    }
  }

  /** An empty entry list gives 0 for every key. */
  lemma NoEntriesNoSizes(key: SizeKey)
    ensures Get(SizesOf([]), key) == 0.0
  {
  }

  /** `getSizesFromEntries( category, entries )`: the `forEach` loop over a
      fresh `sizes` object, then the requested key. */
  method GetSizesFromEntries(key: SizeKey, entries: seq<Entry>) returns (r: real)
    ensures r == Get(SizesOf(entries), key)
    ensures key == Total ==> r == TotalSize(entries)
    ensures key.Part? ==> r == CategorySize(entries, key.category)
  {
    var sizes := NoSizes;
    var i := 0;
    while i < |entries|
      invariant 0 <= i <= |entries|
      invariant sizes == SizesOf(entries[..i])
    {
      assert entries[..i + 1][..i] == entries[..i];
      sizes := AddEntry(sizes, entries[i]);
      i := i + 1;
    }
    assert entries[..|entries|] == entries;
    r := Get(sizes, key);
    SizesOfTotal(entries);
    if key.Part? {
      SizesOfCategory(entries, key.category);
    }
  }

  /** One entry per category with the sizes of the recorded fixture page:
      116208 = 5900 + 315 + 35797 + 53286 + 20910. */
  lemma FixturePageSizes()
    ensures var s := SizesOf(FixtureEntries);
      s == Sizes(5900.0, 315.0, 35797.0, 53286.0, 20910.0, 116208.0)
  {
    var es := FixtureEntries;
    FixtureClasses();
    FiveCategories(es[0], es[1], es[2], es[3], es[4]);
    assert [es[0], es[1], es[2], es[3], es[4]] == es;
  }

  /** Five entries, one per category in the fixture page's order, fold
      into their own sizes. */
  lemma FiveCategories(a: Entry, b: Entry, c: Entry, d: Entry, e: Entry)
    requires Classify(a) == Html && Classify(b) == Css && Classify(c) == Js
    requires Classify(d) == Img && Classify(e) == Other
    ensures SizesOf([a, b, c, d, e]) == Sizes(a.transferSize, b.transferSize, c.transferSize,
                                              d.transferSize, e.transferSize,
                                              a.transferSize + b.transferSize + c.transferSize
                                              + d.transferSize + e.transferSize)
  {
    var x, y, z, w, v := a.transferSize, b.transferSize, c.transferSize, d.transferSize, e.transferSize;
    assert SizesOf([a]) == Sizes(x, 0.0, 0.0, 0.0, 0.0, x) by {
      OneMoreEntry([], a, Html);
      assert [] + [a] == [a];
    }
    assert SizesOf([a, b]) == Sizes(x, y, 0.0, 0.0, 0.0, x + y) by {
      OneMoreEntry([a], b, Css);
      assert [a] + [b] == [a, b];
    }
    assert SizesOf([a, b, c]) == Sizes(x, y, z, 0.0, 0.0, x + y + z) by {
      OneMoreEntry([a, b], c, Js);
      assert [a, b] + [c] == [a, b, c];
    }
    assert SizesOf([a, b, c, d]) == Sizes(x, y, z, w, 0.0, x + y + z + w) by {
      OneMoreEntry([a, b, c], d, Img);
      assert [a, b, c] + [d] == [a, b, c, d];
    }
    OneMoreEntry([a, b, c, d], e, Other);
    assert [a, b, c, d] + [e] == [a, b, c, d, e];
  }

  /** Folding one more entry, classified into `c`. */
  lemma OneMoreEntry(es: seq<Entry>, e: Entry, c: Category)
    requires Classify(e) == c
    ensures SizesOf(es + [e]) == AddSize(SizesOf(es), c, e.transferSize)
  {
    assert (es + [e])[..|es|] == es;
  }

  const FixtureEntries := [
    Entry(5900.0, "/one.html", "navigation"),
    Entry(315.0, "/one.css", "link"),
    Entry(35797.0, "/one.js", "script"),
    Entry(53286.0, "/one.png", "img"),
    Entry(20910.0, "/font.woff2", "css")]

  lemma FixtureClasses()
    ensures Classify(FixtureEntries[0]) == Html
    ensures Classify(FixtureEntries[1]) == Css
    ensures Classify(FixtureEntries[2]) == Js
    ensures Classify(FixtureEntries[3]) == Img
    ensures Classify(FixtureEntries[4]) == Other
  {
    StylesheetPath();
    FontPath();
  }

  lemma StylesheetPath()
    ensures !IsImagePath("/one.css") && !IsFontPath("/one.css")
  {
    DiffersAt("/one.css", ".jpeg", 4);
    DiffersAt("/one.css", ".jpg", 3);
    DiffersAt("/one.css", ".gif", 3);
    DiffersAt("/one.css", ".png", 3);
    DiffersAt("/one.css", ".svg", 1);
    DiffersAt("/one.css", ".woff2", 5);
  }

  lemma FontPath()
    ensures !IsImagePath("/font.woff2") && IsFontPath("/font.woff2")
  {
    DiffersAt("/font.woff2", ".jpeg", 4);
    DiffersAt("/font.woff2", ".jpg", 3);
    DiffersAt("/font.woff2", ".gif", 3);
    DiffersAt("/font.woff2", ".png", 3);
    DiffersAt("/font.woff2", ".svg", 3);
    assert "/font.woff2"[5..] == ".woff2";
  }

  /** A `.woff` file requested by CSS is not a font to this pattern: it
      counts as css, while `.woff2` counts as other. */
  lemma WoffCountsAsCss()
    ensures Classify(Entry(1.0, "/f.woff", "css")) == Css
    ensures Classify(Entry(1.0, "/f.woff2", "css")) == Other
  {
    assert !IsImagePath("/f.woff") && !IsFontPath("/f.woff") by {
      DiffersAt("/f.woff", ".jpeg", 4);
      DiffersAt("/f.woff", ".jpg", 3);
      DiffersAt("/f.woff", ".gif", 0);
      DiffersAt("/f.woff", ".png", 3);
      DiffersAt("/f.woff", ".svg", 3);
      DiffersAt("/f.woff", ".woff2", 0);
    }
    assert !IsImagePath("/f.woff2") && IsFontPath("/f.woff2") by {
      DiffersAt("/f.woff2", ".jpeg", 4);
      DiffersAt("/f.woff2", ".jpg", 3);
      DiffersAt("/f.woff2", ".gif", 3);
      DiffersAt("/f.woff2", ".png", 3);
      DiffersAt("/f.woff2", ".svg", 3);
      assert "/f.woff2"[2..] == ".woff2";
    }
  }
}
