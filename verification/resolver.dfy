/** The domain resolver: given a directory tree and a website name, pick one
    file whose name carries that domain, preferring a `.com` one.

    The repository holds two copies of the resolver that differ in one test
    only: `findExactMatchInDirTLD` in gatherPopularSites.py (variant `Gather`)
    and `findExactMatchInDir` in checkSheetItems.py (variant `Sheet`). Both
    are modelled by `Find`, with the variant choosing the test. */
module Resolver {
  import opened Options
  import opened Text
  import opened Tree

  datatype Variant = Gather | Sheet

  /** How the loop over one directory's entries ends: by an early `return`
      of a path, or by running out of entries with the "other" candidate
      recorded so far. */
  datatype Outcome = Returned(path: Path) | Exhausted(other: Option<Path>)

  /** The domain label searched for: `tldextract`'s domain when the website
      contains a dot, the website itself otherwise, lower-cased either way. */
  function Target(ex: string -> Parts, website: string): (r: string)
    ensures '.' in website ==> r == Lower(ex(website).domain)
    ensures '.' !in website ==> r == Lower(website)
    ensures forall i :: 0 <= i < |r| ==> !IsUpper(r[i])
  {
    Lower(if '.' in website then ex(website).domain else website)
  }

  /** Whether a path handed back by a sub-directory ends the search at once:
      a `.com` suffix, and for the `Gather` variant also an empty subdomain. */
  predicate ShortCircuits(v: Variant, parts: Parts)
  {
    parts.suffix == "com" && (v == Sheet || parts.subdomain == "")
  }

  /** The resolver: `Some(path)` of the chosen file, or `None`. The final
      `foundComPath or foundOtherPath` is the recorded "other" candidate,
      because `foundComPath` is never assigned. */
  function Find(v: Variant, ex: string -> Parts, dir: Path, entries: seq<Entry>, website: string): Option<Path>
    decreases entries, 1
  {
    match Scan(v, ex, website, Target(ex, website), dir, entries, None)
    case Returned(p) => Some(p)
    case Exhausted(other) => other
  }

  /** The loop over one directory's entries, with `other` the first
      non-short-circuiting match recorded so far (`foundOtherPath`). File
      names are compared without lower-casing; a sub-directory is searched
      with the original website, as the source recurses. */
  function Scan(v: Variant, ex: string -> Parts, website: string, target: string,
                dir: Path, entries: seq<Entry>, other: Option<Path>): Outcome
    decreases entries, 0
  {
    if |entries| == 0 then Exhausted(other)
    else
      var rest := entries[1..];
      match entries[0]
      case Dir(n, sub) =>
        var found := Find(v, ex, dir + [n], sub, website);
        if found.None? then Scan(v, ex, website, target, dir, rest, other)
        else if ShortCircuits(v, ex(JustUrl(found.value))) then Returned(found.value)
        else Scan(v, ex, website, target, dir, rest, Or(other, found))
      case File(n) =>
        var parts := ex(Stem(n));
        if parts.domain != target then Scan(v, ex, website, target, dir, rest, other)
        else if parts.suffix == "com" then Returned(dir + [n])
        else Scan(v, ex, website, target, dir, rest, Or(other, Some(dir + [n])))
  }

  // ---------------------------------------------------------------------------
  // Reference definitions over the depth-first file list

  /** `p` names a file of the target domain; with `comOnly`, of suffix `com` too. */
  predicate Wanted(ex: string -> Parts, target: string, comOnly: bool, p: Path)
  {
    var parts := ex(JustUrl(p));
    parts.domain == target && (!comOnly || parts.suffix == "com")
  }

  /** The first wanted path of `ps`. */
  function First(ex: string -> Parts, target: string, comOnly: bool, ps: seq<Path>): (r: Option<Path>)
    ensures r.Some? ==> r.value in ps && Wanted(ex, target, comOnly, r.value)
    ensures r.None? ==> forall p :: p in ps ==> !Wanted(ex, target, comOnly, p)
  {
    if |ps| == 0 then None
    else if Wanted(ex, target, comOnly, ps[0]) then Some(ps[0])
    else First(ex, target, comOnly, ps[1..])
  }

  lemma {:induction false} FirstAppend(ex: string -> Parts, target: string, comOnly: bool, a: seq<Path>, b: seq<Path>)
    ensures First(ex, target, comOnly, a + b) == Or(First(ex, target, comOnly, a), First(ex, target, comOnly, b))
  {
    if |a| == 0 {
      assert a + b == b;
    } else {
      assert (a + b)[1..] == a[1..] + b;
      FirstAppend(ex, target, comOnly, a[1..], b);
    }
  }

  /** Every `.com` match in `ps` has an empty subdomain. */
  predicate BareComs(ex: string -> Parts, target: string, ps: seq<Path>)
  {
    forall p :: p in ps && Wanted(ex, target, true, p) ==> ex(JustUrl(p)).subdomain == ""
  }

  // ---------------------------------------------------------------------------
  // The checkSheetItems variant

  /** The `Sheet` resolver returns the first `.com` match in depth-first order
      if there is one, otherwise the first match of any suffix, otherwise `None`. */
  lemma {:induction false} SheetPrefersFirstCom(ex: string -> Parts, dir: Path, entries: seq<Entry>, website: string)
    ensures var t := Target(ex, website);
            var files := Files(dir, entries);
            Find(Sheet, ex, dir, entries, website) == Or(First(ex, t, true, files), First(ex, t, false, files))
    decreases entries, 1
  {
    SheetScanOutcome(ex, dir, entries, website);
  }

  /** How the top-level `Sheet` loop ends: it returns early exactly when the
      tree holds a `.com` match, and then returns the first one in
      depth-first order; otherwise it runs out of entries holding the first
      match of any suffix, or nothing. */
  lemma SheetScanOutcome(ex: string -> Parts, dir: Path, entries: seq<Entry>, website: string)
    ensures var t := Target(ex, website);
            var files := Files(dir, entries);
            var s := Scan(Sheet, ex, website, t, dir, entries, None);
            && (s.Returned? <==> First(ex, t, true, files).Some?)
            && (s.Returned? ==> First(ex, t, true, files) == Some(s.path))
            && (s.Exhausted? ==> s.other == First(ex, t, false, files))
    decreases entries, 1, 0
  {
    SheetScan(ex, website, Target(ex, website), dir, entries, None);
  }

  /** What the `Sheet` scan of a directory comes to, given its files in
      depth-first order and the candidate recorded before it. */
  function SheetAnswer(ex: string -> Parts, target: string, files: seq<Path>, other: Option<Path>): Outcome
  {
    var com := First(ex, target, true, files);
    if com.Some? then Returned(com.value) else Exhausted(Or(other, First(ex, target, false, files)))
  }

  lemma {:induction false} SheetScan(ex: string -> Parts, website: string, target: string,
                                     dir: Path, entries: seq<Entry>, other: Option<Path>)
    requires target == Target(ex, website)
    ensures Scan(Sheet, ex, website, target, dir, entries, other) == SheetAnswer(ex, target, Files(dir, entries), other)
    decreases entries, 0
  {
    if |entries| > 0 {
      if entries[0].File? {
        SheetScanFile(ex, website, target, dir, entries, other);
      } else {
        SheetScanDir(ex, website, target, dir, entries, other);
      }
    }
  }

  lemma {:induction false} SheetScanFile(ex: string -> Parts, website: string, target: string,
                                         dir: Path, entries: seq<Entry>, other: Option<Path>)
    requires target == Target(ex, website)
    requires |entries| > 0 && entries[0].File?
    ensures Scan(Sheet, ex, website, target, dir, entries, other) == SheetAnswer(ex, target, Files(dir, entries), other)
    decreases entries, 0, 0
  {
    var n, rest := entries[0].name, entries[1..];
    var tail := Files(dir, rest);
    assert entries == [File(n)] + rest;
    assert Files(dir, entries) == [dir + [n]] + tail;
    SheetScan(ex, website, target, dir, rest, other);
    SheetScan(ex, website, target, dir, rest, Or(other, Some(dir + [n])));
    ScanFileStep(Sheet, ex, website, target, dir, n, rest, other);
    FirstAppend(ex, target, true, [dir + [n]], tail);
    FirstAppend(ex, target, false, [dir + [n]], tail);
    assert Basename(dir + [n]) == n;
  }

  lemma {:induction false} SheetScanDir(ex: string -> Parts, website: string, target: string,
                                        dir: Path, entries: seq<Entry>, other: Option<Path>)
    requires target == Target(ex, website)
    requires |entries| > 0 && entries[0].Dir?
    ensures Scan(Sheet, ex, website, target, dir, entries, other) == SheetAnswer(ex, target, Files(dir, entries), other)
    decreases entries, 0, 0
  {
    var n, sub, rest := entries[0].name, entries[0].entries, entries[1..];
    var head, tail := Files(dir + [n], sub), Files(dir, rest);
    assert entries == [Dir(n, sub)] + rest;
    assert Files(dir, entries) == head + tail;
    SheetPrefersFirstCom(ex, dir + [n], sub, website);
    var found := Find(Sheet, ex, dir + [n], sub, website);
    SheetScan(ex, website, target, dir, rest, other);
    SheetScan(ex, website, target, dir, rest, Or(other, found));
    ScanDirStep(Sheet, ex, website, target, dir, n, sub, rest, other);
    FirstAppend(ex, target, true, head, tail);
    FirstAppend(ex, target, false, head, tail);
  }

  // ---------------------------------------------------------------------------
  // Both variants

  /** Soundness and completeness: the resolver answers `None` exactly when no
      file of the tree has the target domain, and otherwise names such a file. */
  lemma {:induction false} FindSound(v: Variant, ex: string -> Parts, dir: Path, entries: seq<Entry>, website: string)
    ensures var t := Target(ex, website);
            var files := Files(dir, entries);
            var r := Find(v, ex, dir, entries, website);
            && (r.None? <==> First(ex, t, false, files).None?)
            && (r.Some? ==> r.value in files && Wanted(ex, t, false, r.value))
    decreases entries, 1
  {
    ScanSound(v, ex, website, Target(ex, website), dir, entries, None);
  }

  lemma {:induction false} ScanSound(v: Variant, ex: string -> Parts, website: string, target: string,
                                     dir: Path, entries: seq<Entry>, other: Option<Path>)
    requires target == Target(ex, website)
    ensures var files := Files(dir, entries);
            match Scan(v, ex, website, target, dir, entries, other)
            case Returned(p) => p in files && Wanted(ex, target, false, p)
            case Exhausted(o) =>
              && (o.None? <==> other.None? && First(ex, target, false, files).None?)
              && (o.Some? ==> o == other || (o.value in files && Wanted(ex, target, false, o.value)))
    decreases entries, 0
  {
    if |entries| > 0 {
      var rest := entries[1..];
      var tail := Files(dir, rest);
      match entries[0]
      case File(n) =>
        FirstAppend(ex, target, false, [dir + [n]], tail);
        var parts := ex(Stem(n));
        if parts.domain != target {
          ScanSound(v, ex, website, target, dir, rest, other);
        } else if parts.suffix != "com" {
          ScanSound(v, ex, website, target, dir, rest, Or(other, Some(dir + [n])));
        }
      case Dir(n, sub) =>
        var head := Files(dir + [n], sub);
        FirstAppend(ex, target, false, head, tail);
        FindSound(v, ex, dir + [n], sub, website);
        var found := Find(v, ex, dir + [n], sub, website);
        if found.None? {
          ScanSound(v, ex, website, target, dir, rest, other);
        } else if !ShortCircuits(v, ex(JustUrl(found.value))) {
          ScanSound(v, ex, website, target, dir, rest, Or(other, found));
        }
    }
  }

  /** When every matching `.com` file has an empty subdomain, the two
      variants agree: the `Gather` test on the subdomain never makes a difference. */
  lemma {:induction false} GatherAgreesWithSheet(ex: string -> Parts, dir: Path, entries: seq<Entry>, website: string)
    requires BareComs(ex, Target(ex, website), Files(dir, entries))
    ensures Find(Gather, ex, dir, entries, website) == Find(Sheet, ex, dir, entries, website)
    decreases entries, 1
  {
    ScanAgrees(ex, website, Target(ex, website), dir, entries, None);
  }

  lemma {:induction false} ScanAgrees(ex: string -> Parts, website: string, target: string,
                                      dir: Path, entries: seq<Entry>, other: Option<Path>)
    requires target == Target(ex, website)
    requires BareComs(ex, target, Files(dir, entries))
    ensures Scan(Gather, ex, website, target, dir, entries, other) == Scan(Sheet, ex, website, target, dir, entries, other)
    decreases entries, 0
  {
    if |entries| > 0 {
      var rest := entries[1..];
      match entries[0]
      case File(n) =>
        var parts := ex(Stem(n));
        if parts.domain != target {
          ScanAgrees(ex, website, target, dir, rest, other);
        } else if parts.suffix != "com" {
          ScanAgrees(ex, website, target, dir, rest, Or(other, Some(dir + [n])));
        }
      case Dir(n, sub) =>
        GatherAgreesWithSheet(ex, dir + [n], sub, website);
        FindSound(Sheet, ex, dir + [n], sub, website);
        var found := Find(Sheet, ex, dir + [n], sub, website);
        if found.None? {
          ScanAgrees(ex, website, target, dir, rest, other);
        } else if !ShortCircuits(Sheet, ex(JustUrl(found.value))) {
          ScanAgrees(ex, website, target, dir, rest, Or(other, found));
        }
    }
  }

  /** With only bare `.com` matches, the `Gather` resolver also returns the
      first `.com` match in depth-first order, else the first match. */
  lemma GatherPrefersFirstBareCom(ex: string -> Parts, dir: Path, entries: seq<Entry>, website: string)
    requires BareComs(ex, Target(ex, website), Files(dir, entries))
    ensures var t := Target(ex, website);
            var files := Files(dir, entries);
            Find(Gather, ex, dir, entries, website) == Or(First(ex, t, true, files), First(ex, t, false, files))
  {
    GatherAgreesWithSheet(ex, dir, entries, website);
    SheetPrefersFirstCom(ex, dir, entries, website);
  }

  /** Without any `.com` match, either variant returns the first match in
      depth-first order: the first recorded "other" path is never replaced. */
  lemma FirstMatchWithoutCom(v: Variant, ex: string -> Parts, dir: Path, entries: seq<Entry>, website: string)
    requires First(ex, Target(ex, website), true, Files(dir, entries)).None?
    ensures Find(v, ex, dir, entries, website) == First(ex, Target(ex, website), false, Files(dir, entries))
  {
    SheetPrefersFirstCom(ex, dir, entries, website);
    if v == Gather {
      GatherAgreesWithSheet(ex, dir, entries, website);
    }
  }

  // ---------------------------------------------------------------------------
  // Early return

  /** Scanning the entries `a + b` is scanning `a`, then, unless `a` returned
      early, scanning `b` with the candidate `a` left behind: entries after
      an early return are never looked at. */
  lemma {:induction false} ScanAppend(v: Variant, ex: string -> Parts, website: string, target: string,
                                      dir: Path, a: seq<Entry>, b: seq<Entry>, other: Option<Path>)
    ensures Scan(v, ex, website, target, dir, a + b, other)
              == match Scan(v, ex, website, target, dir, a, other)
                 case Returned(p) => Returned(p)
                 case Exhausted(o) => Scan(v, ex, website, target, dir, b, o)
  {
    if |a| == 0 {
      assert a + b == b;
    } else {
      assert (a + b)[0] == a[0];
      assert (a + b)[1..] == a[1..] + b;
      var rest := a[1..];
      match a[0]
      case File(n) =>
        ScanAppend(v, ex, website, target, dir, rest, b, other);
        ScanAppend(v, ex, website, target, dir, rest, b, Or(other, Some(dir + [n])));
      case Dir(n, sub) =>
        var found := Find(v, ex, dir + [n], sub, website);
        ScanAppend(v, ex, website, target, dir, rest, b, other);
        ScanAppend(v, ex, website, target, dir, rest, b, Or(other, found));
    }
  }

  /** An entry that ends the search by itself: a file of the target domain
      with suffix `com`, or a sub-directory whose answer short-circuits. */
  predicate Decisive(v: Variant, ex: string -> Parts, website: string, target: string, dir: Path, e: Entry)
  {
    match e
    case File(n) => ex(Stem(n)).domain == target && ex(Stem(n)).suffix == "com"
    case Dir(n, sub) =>
      var found := Find(v, ex, dir + [n], sub, website);
      found.Some? && ShortCircuits(v, ex(JustUrl(found.value)))
  }

  /** A decisive entry on its own returns, whatever candidate was recorded before it. */
  lemma DecisiveReturns(v: Variant, ex: string -> Parts, website: string, target: string,
                        dir: Path, e: Entry, other: Option<Path>)
    requires Decisive(v, ex, website, target, dir, e)
    ensures Scan(v, ex, website, target, dir, [e], other).Returned?
  {
  }

  /** Once a decisive entry is reached the scan returns, whatever follows it:
      the answer depends only on the entries up to and including it. */
  lemma DecisiveEntryStops(v: Variant, ex: string -> Parts, website: string, target: string,
                           dir: Path, entries: seq<Entry>, i: nat, other: Option<Path>)
    requires i < |entries|
    requires Decisive(v, ex, website, target, dir, entries[i])
    ensures Scan(v, ex, website, target, dir, entries, other).Returned?
    ensures Scan(v, ex, website, target, dir, entries, other) == Scan(v, ex, website, target, dir, entries[..i + 1], other)
  {
    var a, e := entries[..i], entries[i];
    var prefix := entries[..i + 1];
    SplitAt(entries, i);
    match Scan(v, ex, website, target, dir, a, other) {
      case Returned(p) =>
        ScanAfterReturn(v, ex, website, target, dir, a, [e], other);
      case Exhausted(o) =>
        ScanAfterExhausted(v, ex, website, target, dir, a, [e], other, o);
        DecisiveReturns(v, ex, website, target, dir, e, o);
    }
    ScanAfterReturn(v, ex, website, target, dir, prefix, entries[i + 1..], other);
  }

  lemma ScanAfterReturn(v: Variant, ex: string -> Parts, website: string, target: string,
                        dir: Path, a: seq<Entry>, b: seq<Entry>, other: Option<Path>)
    requires Scan(v, ex, website, target, dir, a, other).Returned?
    ensures Scan(v, ex, website, target, dir, a + b, other) == Scan(v, ex, website, target, dir, a, other)
  {
    ScanAppend(v, ex, website, target, dir, a, b, other);
  }

  lemma ScanAfterExhausted(v: Variant, ex: string -> Parts, website: string, target: string,
                           dir: Path, a: seq<Entry>, b: seq<Entry>, other: Option<Path>, o: Option<Path>)
    requires Scan(v, ex, website, target, dir, a, other) == Exhausted(o)
    ensures Scan(v, ex, website, target, dir, a + b, other) == Scan(v, ex, website, target, dir, b, o)
  {
    ScanAppend(v, ex, website, target, dir, a, b, other);
  }

  // ---------------------------------------------------------------------------
  // Where the two variants part

  /** A `tldextract` stand-in for the example below. */
  function ExampleExtract(s: string): Parts
  {
    if s == "www.site.com" then Parts("www", "site", "com")
    else if s == "site.com" then Parts("", "site", "com")
    else if s == "site.org" then Parts("", "site", "org")
    else Parts("", s, "")
  }

  /** A scan step over a file entry. */
  lemma ScanFileStep(v: Variant, ex: string -> Parts, website: string, target: string,
                     dir: Path, n: string, rest: seq<Entry>, other: Option<Path>)
    ensures var parts := ex(Stem(n));
            Scan(v, ex, website, target, dir, [File(n)] + rest, other)
              == if parts.domain != target then Scan(v, ex, website, target, dir, rest, other)
                 else if parts.suffix == "com" then Returned(dir + [n])
                 else Scan(v, ex, website, target, dir, rest, Or(other, Some(dir + [n])))
  {
    assert ([File(n)] + rest)[1..] == rest;
  }

  /** A scan step over a sub-directory entry. */
  lemma ScanDirStep(v: Variant, ex: string -> Parts, website: string, target: string,
                    dir: Path, n: string, sub: seq<Entry>, rest: seq<Entry>, other: Option<Path>)
    ensures var found := Find(v, ex, dir + [n], sub, website);
            Scan(v, ex, website, target, dir, [Dir(n, sub)] + rest, other)
              == if found.None? then Scan(v, ex, website, target, dir, rest, other)
                 else if ShortCircuits(v, ex(JustUrl(found.value))) then Returned(found.value)
                 else Scan(v, ex, website, target, dir, rest, Or(other, found))
  {
    assert ([Dir(n, sub)] + rest)[1..] == rest;
  }

  lemma ExampleStems()
    ensures Stem("site.org.md") == "site.org" && Stem("www.site.com.md") == "www.site.com"
  {
    assert "site.org"[0] != '.';
    StemOfExtension("site.org", "md");
    assert "site.org" + "." + "md" == "site.org.md";
    assert "www.site.com"[0] != '.';
    StemOfExtension("www.site.com", "md");
    assert "www.site.com" + "." + "md" == "www.site.com.md";
  }

  lemma ExampleParts()
    ensures ExampleExtract("site.org") == Parts("", "site", "org")
    ensures ExampleExtract("www.site.com") == Parts("www", "site", "com")
  {
    assert "site.org"[5] != "site.com"[5];
  }

  lemma ExampleTarget()
    ensures Target(ExampleExtract, "site") == "site"
  {
    assert '.' !in "site";
    var r := Target(ExampleExtract, "site");
    assert r[0] == 's' && r[1] == 'i' && r[2] == 't' && r[3] == 'e';
  }

  /** Both variants find `b/www.site.com.md` inside `b`: a `.com` file returns at once. */
  lemma ExampleInB(v: Variant)
    ensures Find(v, ExampleExtract, ["corpus", "b"], [File("www.site.com.md"), File("site.com.md")], "site")
              == Some(["corpus", "b", "www.site.com.md"])
  {
    ExampleStems();
    ExampleParts();
    ExampleTarget();
    ScanFileStep(v, ExampleExtract, "site", "site", ["corpus", "b"], "www.site.com.md", [File("site.com.md")], None);
    assert [File("www.site.com.md"), File("site.com.md")] == [File("www.site.com.md")] + [File("site.com.md")];
    assert ["corpus", "b"] + ["www.site.com.md"] == ["corpus", "b", "www.site.com.md"];
  }

  /** Inside `a` both variants find `a/site.org.md`, which is not `.com`. */
  lemma ExampleInA(v: Variant)
    ensures Find(v, ExampleExtract, ["corpus", "a"], [File("site.org.md")], "site") == Some(["corpus", "a", "site.org.md"])
  {
    ExampleStems();
    ExampleParts();
    ExampleTarget();
    ScanFileStep(v, ExampleExtract, "site", "site", ["corpus", "a"], "site.org.md", [], None);
    assert [File("site.org.md")] == [File("site.org.md")] + [];
    assert ["corpus", "a"] + ["site.org.md"] == ["corpus", "a", "site.org.md"];
  }

  /** At the top, `a/site.org.md` is kept as the candidate before `b` is looked at. */
  lemma ExampleTop(v: Variant)
    ensures var a := Dir("a", [File("site.org.md")]);
            var b := Dir("b", [File("www.site.com.md"), File("site.com.md")]);
            Scan(v, ExampleExtract, "site", "site", ["corpus"], [a, b], None)
              == Scan(v, ExampleExtract, "site", "site", ["corpus"], [b], Some(["corpus", "a", "site.org.md"]))
  {
    var a := Dir("a", [File("site.org.md")]);
    var b := Dir("b", [File("www.site.com.md"), File("site.com.md")]);
    var pa := ["corpus", "a", "site.org.md"];
    ExampleInA(v);
    ExampleStems();
    ExampleParts();
    assert ["corpus"] + ["a"] == ["corpus", "a"];
    assert Basename(pa) == "site.org.md";
    ScanDirStep(v, ExampleExtract, "site", "site", ["corpus"], "a", [File("site.org.md")], [b], None);
    assert [a, b] == [a] + [b];
  }

  /** After `a`, the `b` directory hands back `b/www.site.com.md`: `Sheet`
      returns it, `Gather` refuses it for its subdomain and keeps the candidate. */
  lemma ExampleAfterA(v: Variant)
    ensures var b := Dir("b", [File("www.site.com.md"), File("site.com.md")]);
            var pa := ["corpus", "a", "site.org.md"];
            var pb := ["corpus", "b", "www.site.com.md"];
            Scan(v, ExampleExtract, "site", "site", ["corpus"], [b], Some(pa))
              == if v == Sheet then Returned(pb) else Exhausted(Some(pa))
  {
    var b := Dir("b", [File("www.site.com.md"), File("site.com.md")]);
    var pb := ["corpus", "b", "www.site.com.md"];
    ExampleInB(v);
    ExampleStems();
    ExampleParts();
    assert ["corpus"] + ["b"] == ["corpus", "b"];
    assert Basename(pb) == "www.site.com.md";
    ScanDirStep(v, ExampleExtract, "site", "site", ["corpus"], "b", [File("www.site.com.md"), File("site.com.md")], [], Some(["corpus", "a", "site.org.md"]));
    assert [b] == [b] + [];
  }

  /** A tree holding `a/site.org.md`, then `b/www.site.com.md` and
      `b/site.com.md`. Inside `b` the subdomain file is met first and returned;
      one level up `Gather` refuses it for its subdomain and keeps the `.org`
      file recorded earlier, while `Sheet` returns it. Neither picks the bare
      `site.com`, so a `.com` match in the tree does not by itself win. */
  lemma VariantsPart()
    ensures var a := Dir("a", [File("site.org.md")]);
            var b := Dir("b", [File("www.site.com.md"), File("site.com.md")]);
            && Find(Gather, ExampleExtract, ["corpus"], [a, b], "site") == Some(["corpus", "a", "site.org.md"])
            && Find(Sheet, ExampleExtract, ["corpus"], [a, b], "site") == Some(["corpus", "b", "www.site.com.md"])
  {
    ExampleTarget();
    ExampleTop(Gather);
    ExampleTop(Sheet);
    ExampleAfterA(Gather);
    ExampleAfterA(Sheet);
  }
}
