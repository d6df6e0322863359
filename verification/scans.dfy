/** The multi-match scans of gatherPopularSites.py: the capped exact and
    fuzzy searches behind `findMatchingFiles`, the suffix search
    `findFilesByTLDs`, and the list lookup `fuzzyMatchIndex`. */
module Scans {
  import opened Text
  import opened Tree

  /** At most this many paths are collected per domain. */
  const Cap := 5

  /** `findExactMatchInDir` compares the extracted domain of a file name;
      `scanDir` looks for the domain anywhere in the file name. */
  datatype Mode = Exact | Fuzzy

  /** The two dictionaries the scans fill in place: the paths found per
      domain, and how many have been counted per domain. */
  datatype Tally = Tally(matches: map<string, seq<Path>>, thresholds: map<string, int>)

  /** `[tldextract.extract(site).domain for site in websites]`. */
  function Domains(ex: string -> Parts, websites: seq<string>): (r: seq<string>)
    ensures |r| == |websites|
    ensures forall i :: 0 <= i < |r| ==> r[i] == ex(websites[i]).domain
  {
    seq(|websites|, i requires 0 <= i < |websites| => ex(websites[i]).domain)
  }

  predicate Distinct(s: seq<string>)
  {
    forall i, j :: 0 <= i < j < |s| ==> s[i] != s[j]
  }

  /** Both dictionaries have an entry for every domain in `ds`, so no lookup
      the scans make can raise `KeyError`. */
  predicate Tracks(t: Tally, ds: seq<string>)
  {
    forall d :: d in ds ==> d in t.matches && d in t.thresholds
  }

  /** Per domain, the count equals the number of paths kept, which is at most `Cap`. */
  predicate Capped(t: Tally, ds: seq<string>)
    requires Tracks(t, ds)
  {
    forall d :: d in ds ==> t.thresholds[d] == |t.matches[d]| <= Cap
  }

  ghost predicate SameKeys(a: Tally, b: Tally)
  {
    && (forall k :: k in a.matches <==> k in b.matches)
    && (forall k :: k in a.thresholds <==> k in b.thresholds)
  }

  /** Appending `p` to the list of `d` and counting it. */
  function Record(t: Tally, d: string, p: Path): Tally
    requires d in t.matches && d in t.thresholds
  {
    Tally(t.matches[d := t.matches[d] + [p]], t.thresholds[d := t.thresholds[d] + 1])
  }

  /** Whether file `p` counts for domain `d` in the given mode. */
  predicate Hit(mode: Mode, ex: string -> Parts, d: string, p: Path)
  {
    match mode
    case Exact => ex(JustUrl(p)).domain == d
    case Fuzzy => IsSubstring(d, JustUrl(p))
  }

  // ---------------------------------------------------------------------------
  // The scans

  /** The file branch of `findExactMatchInDir`: the file's extracted domain,
      if it is one of the domains and still below the cap, gets the path. */
  function ExactFile(ex: string -> Parts, domains: seq<string>, p: Path, t: Tally): (r: Tally)
    requires Tracks(t, domains)
    ensures Tracks(r, domains) && SameKeys(r, t)
  {
    var d := ex(JustUrl(p)).domain;
    if d in domains && t.thresholds[d] < Cap then Record(t, d, p) else t
  }

  /** The file branch of `scanDir`: every website whose domain is below the
      cap and occurs in the file name gets the path, one website at a time. */
  function FuzzyFile(ex: string -> Parts, sites: seq<string>, stem: string, p: Path, t: Tally): (r: Tally)
    requires Tracks(t, Domains(ex, sites))
    ensures Tracks(r, Domains(ex, sites)) && SameKeys(r, t)
    decreases sites
  {
    if |sites| == 0 then t
    else
      var d := ex(sites[0]).domain;
      var t' := if t.thresholds[d] < Cap && IsSubstring(d, stem) then Record(t, d, p) else t;
      assert Domains(ex, sites[1..]) == Domains(ex, sites)[1..];
      FuzzyFile(ex, sites[1..], stem, p, t')
  }

  function FileStep(mode: Mode, ex: string -> Parts, websites: seq<string>, p: Path, t: Tally): (r: Tally)
    requires Tracks(t, Domains(ex, websites))
    ensures Tracks(r, Domains(ex, websites)) && SameKeys(r, t)
  {
    match mode
    case Exact => ExactFile(ex, Domains(ex, websites), p, t)
    case Fuzzy => FuzzyFile(ex, websites, JustUrl(p), p, t)
  }

  /** `findExactMatchInDir` (mode `Exact`) and `scanDir` (mode `Fuzzy`): the
      entries in scan order, sub-directories searched where they stand, with
      both dictionaries threaded through. */
  function ScanTree(mode: Mode, ex: string -> Parts, websites: seq<string>, dir: Path, entries: seq<Entry>, t: Tally): (r: Tally)
    requires Tracks(t, Domains(ex, websites))
    ensures Tracks(r, Domains(ex, websites)) && SameKeys(r, t)
    decreases entries
  {
    if |entries| == 0 then t
    else
      var t' := match entries[0]
        case Dir(n, sub) => ScanTree(mode, ex, websites, dir + [n], sub, t)
        case File(n) => FileStep(mode, ex, websites, dir + [n], t);
      ScanTree(mode, ex, websites, dir, entries[1..], t')
  }

  /** The tally `findMatchingFiles` starts from: one empty list and one
      zero count per domain. */
  function Fresh(ds: seq<string>): (t: Tally)
    ensures forall k :: k in t.matches <==> k in ds
    ensures Tracks(t, ds) && Capped(t, ds)
    ensures forall d :: d in ds ==> t.matches[d] == [] && t.thresholds[d] == 0
  {
    Tally(map d | d in ds :: [], map d | d in ds :: 0)
  }

  /** `findMatchingFiles`: the fresh tally, then the exact or the fuzzy
      scan; the lists are returned. */
  function FindMatchingFiles(ex: string -> Parts, websites: seq<string>, dir: Path, entries: seq<Entry>, exact: bool): (r: map<string, seq<Path>>)
    ensures forall d :: d in r <==> d in Domains(ex, websites)
    ensures forall d :: d in r ==> |r[d]| <= Cap
  {
    var t := Fresh(Domains(ex, websites));
    var mode := if exact then Exact else Fuzzy;
    ScanKeepsCap(mode, ex, websites, dir, entries, t);
    ScanTree(mode, ex, websites, dir, entries, t).matches
  }

  // ---------------------------------------------------------------------------
  // The cap

  lemma RecordKeepsCap(t: Tally, ds: seq<string>, d: string, p: Path)
    requires Tracks(t, ds) && Capped(t, ds)
    requires d in t.matches && d in t.thresholds && (d in ds ==> t.thresholds[d] < Cap)
    ensures Tracks(Record(t, d, p), ds) && Capped(Record(t, d, p), ds)
  {
  }

  lemma {:induction false} FuzzyFileKeepsCap(ex: string -> Parts, ds: seq<string>, sites: seq<string>, stem: string, p: Path, t: Tally)
    requires Tracks(t, Domains(ex, sites)) && Tracks(t, ds) && Capped(t, ds)
    ensures Tracks(FuzzyFile(ex, sites, stem, p, t), ds) && Capped(FuzzyFile(ex, sites, stem, p, t), ds)
    decreases sites
  {
    if |sites| > 0 {
      var d := ex(sites[0]).domain;
      assert d == Domains(ex, sites)[0];
      if t.thresholds[d] < Cap && IsSubstring(d, stem) {
        RecordKeepsCap(t, ds, d, p);
      }
      var t' := if t.thresholds[d] < Cap && IsSubstring(d, stem) then Record(t, d, p) else t;
      assert Domains(ex, sites[1..]) == Domains(ex, sites)[1..];
      FuzzyFileKeepsCap(ex, ds, sites[1..], stem, p, t');
    }
  }

  /** Every domain's list holds at most `Cap` paths and its count equals the
      list's length, before and after either scan. */
  lemma {:induction false} ScanKeepsCap(mode: Mode, ex: string -> Parts, websites: seq<string>, dir: Path, entries: seq<Entry>, t: Tally)
    requires Tracks(t, Domains(ex, websites)) && Capped(t, Domains(ex, websites))
    ensures Capped(ScanTree(mode, ex, websites, dir, entries, t), Domains(ex, websites))
    decreases entries
  {
    var ds := Domains(ex, websites);
    if |entries| > 0 {
      var t': Tally;
      match entries[0] {
        case Dir(n, sub) =>
          t' := ScanTree(mode, ex, websites, dir + [n], sub, t);
          ScanKeepsCap(mode, ex, websites, dir + [n], sub, t);
        case File(n) =>
          var p := dir + [n];
          t' := FileStep(mode, ex, websites, p, t);
          if mode == Fuzzy {
            FuzzyFileKeepsCap(ex, ds, websites, JustUrl(p), p, t);
          } else {
            var d := ex(JustUrl(p)).domain;
            if d in ds && t.thresholds[d] < Cap {
              RecordKeepsCap(t, ds, d, p);
            }
          }
      }
      assert Capped(t', ds);
      assert ScanTree(mode, ex, websites, dir, entries, t) == ScanTree(mode, ex, websites, dir, entries[1..], t');
      ScanKeepsCap(mode, ex, websites, dir, entries[1..], t');
    }
  }

  // ---------------------------------------------------------------------------
  // What the scans collect

  /** `s[:k]` for a count that may be negative or past the end. */
  function Take<T>(s: seq<T>, k: int): seq<T>
  {
    if k <= 0 then [] else if k >= |s| then s else s[..k]
  }

  lemma TakeAppend<T>(a: seq<T>, b: seq<T>, k: int)
    ensures Take(a + b, k) == Take(a, k) + Take(b, k - |Take(a, k)|)
  {
    if 0 < k < |a| {
      assert (a + b)[..k] == a[..k];
    }
  }

  function HitTest(mode: Mode, ex: string -> Parts, d: string): Path -> bool
  {
    p => Hit(mode, ex, d, p)
  }

  /** The paths of `ps` that count for `d`, in order. */
  function Hits(mode: Mode, ex: string -> Parts, d: string, ps: seq<Path>): seq<Path>
  {
    Filter(HitTest(mode, ex, d), ps)
  }

  /** Between `before` and `after`, the list of `d` grew by the first of
      `hits`, as many as its count left room for below `Cap`, and the count
      by as many. */
  ghost predicate Extends(d: string, hits: seq<Path>, before: Tally, after: Tally)
    requires d in before.matches && d in before.thresholds && d in after.matches && d in after.thresholds
  {
    var add := Take(hits, Cap - before.thresholds[d]);
    after.matches[d] == before.matches[d] + add && after.thresholds[d] == before.thresholds[d] + |add|
  }

  /** Two successive extensions make one, taken from the concatenated hits. */
  lemma ExtendsChain(d: string, ha: seq<Path>, hb: seq<Path>, t0: Tally, t1: Tally, t2: Tally)
    requires d in t0.matches && d in t0.thresholds && d in t1.matches && d in t1.thresholds
    requires d in t2.matches && d in t2.thresholds
    requires Extends(d, ha, t0, t1) && Extends(d, hb, t1, t2)
    ensures Extends(d, ha + hb, t0, t2)
  {
    var n0, n1 := t0.thresholds[d], t1.thresholds[d];
    TakeAppend(ha, hb, Cap - n0);
    AppendAssoc(t0.matches[d], Take(ha, Cap - n0), Take(hb, Cap - n1));
  }

  /** What a single file adds to the list of `d` with `k` places left. */
  lemma TakeHitsOne(mode: Mode, ex: string -> Parts, d: string, p: Path, k: int)
    ensures Take(Hits(mode, ex, d, [p]), k) == if Hit(mode, ex, d, p) && k > 0 then [p] else []
  {
    FilterOne(HitTest(mode, ex, d), p);
  }

  /** The entry of `d` is the same in both tallies. */
  ghost predicate SameAt(d: string, before: Tally, after: Tally)
    requires d in before.matches && d in before.thresholds && d in after.matches && d in after.thresholds
  {
    after.matches[d] == before.matches[d] && after.thresholds[d] == before.thresholds[d]
  }

  /** `after` is `before` with `p` recorded for `d` when `hit` holds and the
      count of `d` is below the cap. */
  ghost predicate OfferedAt(d: string, hit: bool, p: Path, before: Tally, after: Tally)
    requires d in before.matches && d in before.thresholds && d in after.matches && d in after.thresholds
  {
    if hit && before.thresholds[d] < Cap then
      after.matches[d] == before.matches[d] + [p] && after.thresholds[d] == before.thresholds[d] + 1
    else SameAt(d, before, after)
  }

  /** The fuzzy file step offers the file once to every listed domain and
      leaves the other keys alone. */
  lemma {:induction false} FuzzyFileAt(ex: string -> Parts, sites: seq<string>, d: string, stem: string, p: Path, t: Tally)
    requires Tracks(t, Domains(ex, sites)) && Distinct(Domains(ex, sites))
    requires d in t.matches && d in t.thresholds
    ensures var r := FuzzyFile(ex, sites, stem, p, t);
            if d in Domains(ex, sites) then OfferedAt(d, IsSubstring(d, stem), p, t, r) else SameAt(d, t, r)
    decreases sites
  {
    var ds := Domains(ex, sites);
    if |sites| > 0 {
      var e := ex(sites[0]).domain;
      var t' := if t.thresholds[e] < Cap && IsSubstring(e, stem) then Record(t, e, p) else t;
      var rest := Domains(ex, sites[1..]);
      assert rest == ds[1..];
      assert Distinct(rest);
      assert FuzzyFile(ex, sites, stem, p, t) == FuzzyFile(ex, sites[1..], stem, p, t');
      FuzzyFileAt(ex, sites[1..], d, stem, p, t');
      if d == e {
        forall j | 0 <= j < |rest|
          ensures rest[j] != d
        {
          assert rest[j] == ds[j + 1];
        }
      } else {
        assert SameAt(d, t, t');
        assert d in ds <==> d in rest;
      }
    }
  }

  /** Offering one file is extending by its hits. */
  lemma OfferedExtends(mode: Mode, ex: string -> Parts, d: string, p: Path, t: Tally, r: Tally)
    requires d in t.matches && d in t.thresholds && d in r.matches && d in r.thresholds
    requires OfferedAt(d, Hit(mode, ex, d, p), p, t, r)
    ensures Extends(d, Hits(mode, ex, d, [p]), t, r)
  {
    TakeHitsOne(mode, ex, d, p, Cap - t.thresholds[d]);
  }

  lemma ExactFileAt(ex: string -> Parts, ds: seq<string>, d: string, p: Path, t: Tally)
    requires Tracks(t, ds) && d in ds
    ensures Extends(d, Hits(Exact, ex, d, [p]), t, ExactFile(ex, ds, p, t))
  {
    TakeHitsOne(Exact, ex, d, p, Cap - t.thresholds[d]);
  }

  /** The list of each domain grows by the first hits among the tree's files
      in depth-first order, as many as its count leaves room for below `Cap`.
      For the fuzzy scan this needs the websites to have distinct domains: a
      domain listed twice is offered every file twice. */
  lemma {:induction false} ScanCollectsFirstHits(mode: Mode, ex: string -> Parts, websites: seq<string>, d: string, dir: Path, entries: seq<Entry>, t: Tally)
    requires Tracks(t, Domains(ex, websites)) && d in Domains(ex, websites)
    requires mode == Fuzzy ==> Distinct(Domains(ex, websites))
    ensures Extends(d, Hits(mode, ex, d, Files(dir, entries)), t, ScanTree(mode, ex, websites, dir, entries, t))
    decreases entries
  {
    var ds := Domains(ex, websites);
    if |entries| > 0 {
      var head: seq<Path>;
      var t': Tally;
      match entries[0] {
        case Dir(n, sub) =>
          head := Files(dir + [n], sub);
          t' := ScanTree(mode, ex, websites, dir + [n], sub, t);
          ScanCollectsFirstHits(mode, ex, websites, d, dir + [n], sub, t);
        case File(n) =>
          head := [dir + [n]];
          t' := FileStep(mode, ex, websites, dir + [n], t);
          if mode == Fuzzy {
            FuzzyFileAt(ex, websites, d, JustUrl(dir + [n]), dir + [n], t);
            OfferedExtends(mode, ex, d, dir + [n], t, t');
          } else {
            ExactFileAt(ex, ds, d, dir + [n], t);
          }
      }
      assert Files(dir, entries) == head + Files(dir, entries[1..]);
      assert ScanTree(mode, ex, websites, dir, entries, t) == ScanTree(mode, ex, websites, dir, entries[1..], t');
      ScanCollectsFirstHits(mode, ex, websites, d, dir, entries[1..], t');
      FilterAppend(HitTest(mode, ex, d), head, Files(dir, entries[1..]));
      ExtendsChain(d, Hits(mode, ex, d, head), Hits(mode, ex, d, Files(dir, entries[1..])), t, t', ScanTree(mode, ex, websites, dir, entries[1..], t'));
    }
  }

  /** `findMatchingFiles` in exact mode returns, for every domain, the first
      `Cap` files whose name has that domain, in depth-first order; in fuzzy
      mode the same holds of the files whose name contains the domain, when
      the domains are distinct. */
  lemma FindMatchingFilesFirstFive(ex: string -> Parts, websites: seq<string>, dir: Path, entries: seq<Entry>, exact: bool, d: string)
    requires !exact ==> Distinct(Domains(ex, websites))
    requires d in Domains(ex, websites)
    ensures var r := FindMatchingFiles(ex, websites, dir, entries, exact);
            var mode := if exact then Exact else Fuzzy;
            d in r && r[d] == Take(Hits(mode, ex, d, Files(dir, entries)), Cap)
  {
    var t := Fresh(Domains(ex, websites));
    var mode := if exact then Exact else Fuzzy;
    ScanCollectsFirstHits(mode, ex, websites, d, dir, entries, t);
    var hits := Hits(mode, ex, d, Files(dir, entries));
    assert t.matches[d] + Take(hits, Cap - t.thresholds[d]) == Take(hits, Cap);
  }

  /** A `tldextract` stand-in for the example below. */
  function SiteExtract(s: string): Parts
  {
    if s == "a.com" then Parts("", "a", "com")
    else if s == "a.org" then Parts("", "a", "org")
    else Parts("", s, "")
  }

  /** Two websites with the same domain: `scanDir` offers the one file
      `a.md` once per website, so the list of `a` holds its path twice. */
  lemma DuplicateSitesExample()
    ensures var p: Path := ["corpus", "a.md"];
            FindMatchingFiles(SiteExtract, ["a.com", "a.org"], ["corpus"], [File("a.md")], false)["a"] == [p, p]
  {
    var ex, sites, p: Path := SiteExtract, ["a.com", "a.org"], ["corpus", "a.md"];
    ExampleDomains();
    var t := Fresh(["a", "a"]);
    ExampleJustUrl();
    var t2 := ExampleOffers(t, p);
    assert FileStep(Fuzzy, ex, sites, p, t) == t2;
    assert ["corpus"] + ["a.md"] == p;
    assert ScanTree(Fuzzy, ex, sites, ["corpus"], [File("a.md")], t) == ScanTree(Fuzzy, ex, sites, ["corpus"], [], t2);
    assert FindMatchingFiles(ex, sites, ["corpus"], [File("a.md")], false) == ScanTree(Fuzzy, ex, sites, ["corpus"], [File("a.md")], t).matches;
  }

  lemma ExampleDomains()
    ensures Domains(SiteExtract, ["a.com", "a.org"]) == ["a", "a"]
  {
  }

  lemma ExampleJustUrl()
    ensures JustUrl(["corpus", "a.md"]) == "a"
  {
    assert "a"[0] != '.';
    StemOfExtension("a", "md");
    assert "a" + "." + "md" == "a.md";
  }

  /** Each of the two websites records the file for `a`. */
  lemma ExampleOffers(t: Tally, p: Path) returns (t2: Tally)
    requires Tracks(t, Domains(SiteExtract, ["a.com", "a.org"]))
    requires "a" in t.matches && "a" in t.thresholds && t.matches["a"] == [] && t.thresholds["a"] == 0
    ensures FuzzyFile(SiteExtract, ["a.com", "a.org"], "a", p, t) == t2
    ensures "a" in t2.matches && t2.matches["a"] == [p, p]
  {
    var sites := ["a.com", "a.org"];
    assert IsSubstring("a", "a") by {
      assert OccursAt("a", "a", 0);
    }
    var t1 := Record(t, "a", p);
    assert FuzzyFile(SiteExtract, sites, "a", p, t) == FuzzyFile(SiteExtract, sites[1..], "a", p, t1);
    t2 := Record(t1, "a", p);
    assert FuzzyFile(SiteExtract, sites[1..], "a", p, t1) == FuzzyFile(SiteExtract, [], "a", p, t2);
  }

  // ---------------------------------------------------------------------------
  // findFilesByTLDs

  /** `'.' + suffix` of the file's name, the key the suffix search files it under. */
  function DottedSuffix(ex: string -> Parts, p: Path): string
  {
    "." + ex(JustUrl(p)).suffix
  }

  ghost predicate Covers(m: map<string, seq<Path>>, gtlds: seq<string>)
  {
    forall g :: g in m <==> g in gtlds
  }

  /** `findFilesByTLDs`: a fresh dictionary with one empty list per suffix,
      filled from this directory's entries in scan order. */
  function ByTLDs(ex: string -> Parts, gtlds: seq<string>, dir: Path, entries: seq<Entry>): (r: map<string, seq<Path>>)
    ensures Covers(r, gtlds)
    decreases entries, 1
  {
    TLDScan(ex, gtlds, dir, entries, map g | g in gtlds :: [])
  }

  /** Extending each list of `acc` with the list a sub-directory returned for the same suffix. */
  function Merge(acc: map<string, seq<Path>>, sub: map<string, seq<Path>>): (r: map<string, seq<Path>>)
    ensures forall k :: k in r <==> k in acc
  {
    map k | k in acc :: if k in sub then acc[k] + sub[k] else acc[k]
  }

  function TLDScan(ex: string -> Parts, gtlds: seq<string>, dir: Path, entries: seq<Entry>, acc: map<string, seq<Path>>): (r: map<string, seq<Path>>)
    requires Covers(acc, gtlds)
    ensures Covers(r, gtlds)
    decreases entries, 0
  {
    if |entries| == 0 then acc
    else
      var acc' := match entries[0]
        case Dir(n, sub) => Merge(acc, ByTLDs(ex, gtlds, dir + [n], sub))
        case File(n) => TLDFile(ex, gtlds, dir + [n], acc);
      TLDScan(ex, gtlds, dir, entries[1..], acc')
  }

  /** The file branch of `findFilesByTLDs`: the path goes to the list of its
      dotted suffix when that suffix was asked for. */
  function TLDFile(ex: string -> Parts, gtlds: seq<string>, p: Path, acc: map<string, seq<Path>>): (r: map<string, seq<Path>>)
    requires Covers(acc, gtlds)
    ensures Covers(r, gtlds)
  {
    var tld := DottedSuffix(ex, p);
    if tld in gtlds then acc[tld := acc[tld] + [p]] else acc
  }

  function SuffixTest(ex: string -> Parts, g: string): Path -> bool
  {
    p => DottedSuffix(ex, p) == g
  }

  /** The paths of `ps` filed under suffix `g`, in order. */
  function SuffixHits(ex: string -> Parts, g: string, ps: seq<Path>): seq<Path>
  {
    Filter(SuffixTest(ex, g), ps)
  }

  /** For every requested suffix, `findFilesByTLDs` lists exactly the files of
      the tree with that suffix, in depth-first order. */
  lemma {:induction false} ByTLDsListsAll(ex: string -> Parts, gtlds: seq<string>, g: string, dir: Path, entries: seq<Entry>)
    requires g in gtlds
    ensures ByTLDs(ex, gtlds, dir, entries)[g] == SuffixHits(ex, g, Files(dir, entries))
    decreases entries, 1
  {
    TLDScanLists(ex, gtlds, g, dir, entries, map g | g in gtlds :: []);
  }

  lemma TLDFileAt(ex: string -> Parts, gtlds: seq<string>, g: string, p: Path, acc: map<string, seq<Path>>)
    requires Covers(acc, gtlds) && g in gtlds
    ensures TLDFile(ex, gtlds, p, acc)[g] == acc[g] + SuffixHits(ex, g, [p])
  {
    FilterOne(SuffixTest(ex, g), p);
  }

  lemma {:induction false} TLDScanLists(ex: string -> Parts, gtlds: seq<string>, g: string, dir: Path, entries: seq<Entry>, acc: map<string, seq<Path>>)
    requires Covers(acc, gtlds) && g in gtlds
    ensures TLDScan(ex, gtlds, dir, entries, acc)[g] == acc[g] + SuffixHits(ex, g, Files(dir, entries))
    decreases entries, 0
  {
    if |entries| == 0 {
      assert acc[g] + [] == acc[g];
    } else {
      var rest := entries[1..];
      var head: seq<Path>;
      var acc': map<string, seq<Path>>;
      match entries[0] {
        case Dir(n, sub) =>
          head := Files(dir + [n], sub);
          acc' := Merge(acc, ByTLDs(ex, gtlds, dir + [n], sub));
          ByTLDsListsAll(ex, gtlds, g, dir + [n], sub);
        case File(n) =>
          head := [dir + [n]];
          acc' := TLDFile(ex, gtlds, dir + [n], acc);
          TLDFileAt(ex, gtlds, g, dir + [n], acc);
      }
      assert acc'[g] == acc[g] + SuffixHits(ex, g, head);
      assert Files(dir, entries) == head + Files(dir, rest);
      assert TLDScan(ex, gtlds, dir, entries, acc)[g] == TLDScan(ex, gtlds, dir, rest, acc')[g];
      TLDScanLists(ex, gtlds, g, dir, rest, acc');
      FilterAppend(SuffixTest(ex, g), head, Files(dir, rest));
      AppendAssoc(acc[g], SuffixHits(ex, g, head), SuffixHits(ex, g, Files(dir, rest)));
    }
  }

  // ---------------------------------------------------------------------------
  // fuzzyMatchIndex

  /** `fuzzyMatchIndex`: the least index whose element's extracted domain is
      the query, or -1 when there is none. */
  method FuzzyMatchIndex(ex: string -> Parts, myList: seq<string>, query: string) returns (index: int)
    ensures -1 <= index < |myList|
    ensures index >= 0 ==> ex(myList[index]).domain == query
    ensures forall k :: 0 <= k < |myList| && (index < 0 || k < index) ==> ex(myList[k]).domain != query
  {
    var i := 0;
    while i < |myList|
      invariant 0 <= i <= |myList|
      invariant forall k :: 0 <= k < i ==> ex(myList[k]).domain != query
    {
      if ex(myList[i]).domain == query {
        return i;
      }
      i := i + 1;
    }
    return -1;
  }
}
