/** The corpus as the tools see it: a directory tree whose entries come in the
    fixed order `os.scandir` yields them, and the `tldextract` split of a name. */
module Tree {
  import opened Text

  /** A directory entry: a file, or a sub-directory with its entries in scan order. */
  datatype Entry = File(name: string) | Dir(name: string, entries: seq<Entry>)

  /** A path as its components: the root path the caller passed, then one
      component per directory entered, ending with the entry's own name. */
  type Path = seq<string>

  /** The result of `tldextract.extract(s)`: `(subdomain, domain, suffix)`. */
  datatype Parts = Parts(subdomain: string, domain: string, suffix: string)

  /** `os.path.basename(path)`. */
  function Basename(p: Path): string
  {
    if |p| == 0 then "" else p[|p| - 1]
  }

  /** `justURL(path)`: the file name without its extension,
      `os.path.splitext(os.path.basename(path))[0]`. */
  function JustUrl(p: Path): (r: string)
    ensures |r| <= |Basename(p)| && Basename(p)[..|r|] == r
  {
    Stem(Basename(p))
  }

  /** For a corpus file named `<site>.<ext>`, with a dot-free extension and a
      `<site>` not made only of dots, the name handed to `tldextract` is
      `<site>`, whatever directory the file sits in. */
  lemma JustUrlOfCorpusFile(dir: Path, site: string, ext: string)
    requires '.' !in ext
    requires HasNonDot(site)
    ensures JustUrl(dir + [site + "." + ext]) == site
  {
    StemOfExtension(site, ext);
  }

  /** `os.path.join` over all components, with `/` as the separator. */
  function PathString(p: Path): string
  {
    Join("/", p)
  }

  /** The paths of all files below `dir`, in depth-first scan order: each
      sub-directory's files come before the entries that follow it. */
  function Files(dir: Path, entries: seq<Entry>): seq<Path>
    decreases entries
  {
    if |entries| == 0 then []
    else
      var head := match entries[0]
        case File(n) => [dir + [n]]
        case Dir(n, sub) => Files(dir + [n], sub);
      head + Files(dir, entries[1..])
  }

  /** Every file path below `dir` extends `dir` by at least its file name. */
  lemma {:induction false} FilesBelow(dir: Path, entries: seq<Entry>)
    ensures forall p :: p in Files(dir, entries) ==> |p| > |dir| && p[..|dir|] == dir
    decreases entries
  {
    if |entries| > 0 {
      FilesBelow(dir, entries[1..]);
      match entries[0]
      case File(n) =>
      case Dir(n, sub) =>
        FilesBelow(dir + [n], sub);
        forall p | p in Files(dir + [n], sub)
          ensures |p| > |dir| && p[..|dir|] == dir
        {
          assert p[..|dir|] == p[..|dir| + 1][..|dir|];
        }
    }
  }
}
