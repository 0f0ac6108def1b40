/**
 * The file organizer: `get_file_category`, Python's `os.path.splitext`, the
 * search for a free name on a conflict, and the per-item loop of
 * `organize_files`.
 *
 * The directory being organized is a value: the regular files at its top
 * level and its sub-directories with the names inside each. Whether
 * `os.makedirs` and `shutil.move` succeed for the item at a given position
 * of the listing is a parameter, and so is the listing itself, which is
 * absent when `os.listdir` raises PermissionError.
 */
module FileOrganizer {
  import opened Wrappers
  import opened PyText

  // ---------------------------------------------------------------------------
  // Categories
  // ---------------------------------------------------------------------------

  /** Category names and their extensions, in the order `get_file_category` searches them. */
  const FILE_CATEGORIES: seq<(string, seq<string>)> := [
    ("Images", [".jpg", ".jpeg", ".png", ".gif", ".bmp", ".svg", ".webp", ".ico", ".tiff"]),
    ("Documents", [".pdf", ".doc", ".docx", ".txt", ".xlsx", ".xls", ".ppt", ".pptx", ".odt"]),
    ("Videos", [".mp4", ".avi", ".mkv", ".mov", ".wmv", ".flv", ".webm", ".m4v"]),
    ("Audio", [".mp3", ".wav", ".flac", ".aac", ".ogg", ".wma", ".m4a", ".aiff"]),
    ("Archives", [".zip", ".rar", ".7z", ".tar", ".gz", ".bz2", ".iso"]),
    ("Code", [".py", ".js", ".html", ".css", ".java", ".cpp", ".c", ".php", ".rb", ".go", ".rs"]),
    ("Executables", [".exe", ".msi", ".bat", ".cmd", ".sh", ".app", ".dmg"]),
    ("Data", [".json", ".xml", ".csv", ".sql", ".db", ".yml", ".yaml"])]

  const OTHER := "Other"

  /** Every name `get_file_category` can return. */
  const CATEGORY_NAMES: seq<string> :=
    ["Images", "Documents", "Videos", "Audio", "Archives", "Code", "Executables", "Data", OTHER]

  /** The first category of `table` whose list holds `e`, or "Other". */
  function CategoryIn(table: seq<(string, seq<string>)>, e: string): string {
    if |table| == 0 then OTHER
    else if e in table[0].1 then table[0].0
    else CategoryIn(table[1..], e)
  }

  /** `get_file_category`: the extension is lower-cased, then looked up. */
  function Category(ext: string): string {
    CategoryIn(FILE_CATEGORIES, Lower(ext))
  }

  /** The result is the first category listing `e`. */
  lemma {:induction false} CategoryInFirst(table: seq<(string, seq<string>)>, e: string, j: nat)
    requires j < |table| && e in table[j].1
    requires forall k :: 0 <= k < j ==> e !in table[k].1
    ensures CategoryIn(table, e) == table[j].0
  {
    if j > 0 {
      assert e !in table[0].1;
      CategoryInFirst(table[1..], e, j - 1);
    }
  }

  /** When no category lists `e`, the result is "Other". */
  lemma {:induction false} CategoryInMissing(table: seq<(string, seq<string>)>, e: string)
    requires forall k :: 0 <= k < |table| ==> e !in table[k].1
    ensures CategoryIn(table, e) == OTHER
  {
    if |table| > 0 {
      CategoryInMissing(table[1..], e);
    }
  }

  /** The result is "Other" or the name of a category that lists `e`. */
  lemma {:induction false} CategoryInNamed(table: seq<(string, seq<string>)>, e: string)
    ensures CategoryIn(table, e) == OTHER ||
            exists j :: 0 <= j < |table| && e in table[j].1 && CategoryIn(table, e) == table[j].0
  {
    if |table| > 0 && e !in table[0].1 {
      CategoryInNamed(table[1..], e);
      if CategoryIn(table, e) != OTHER {
        var j :| 0 <= j < |table| - 1 && e in table[1..][j].1 && CategoryIn(table[1..], e) == table[1..][j].0;
        assert table[1..][j] == table[j + 1];
      }
    }
  }

  lemma CategoryNamesMatch()
    ensures |CATEGORY_NAMES| == |FILE_CATEGORIES| + 1 && CATEGORY_NAMES[|FILE_CATEGORIES|] == OTHER
    ensures forall j :: 0 <= j < |FILE_CATEGORIES| ==> FILE_CATEGORIES[j].0 == CATEGORY_NAMES[j]
  {
  }

  /** `get_file_category` returns one of the eight category names or "Other". */
  lemma CategoryIsKnown(ext: string)
    ensures Category(ext) in CATEGORY_NAMES
  {
    CategoryInNamed(FILE_CATEGORIES, Lower(ext));
    CategoryNamesMatch();
  }

  /** `get_file_category('.pdf')` is "Documents". */
  lemma PdfIsDocument()
    ensures Category(".pdf") == "Documents"
  {
    LowerOfLowered(".pdf");
    CategoryInFirst(FILE_CATEGORIES, ".pdf", 1);
  }

  /** `get_file_category('.jpg')` is "Images". */
  lemma JpgIsImage()
    ensures Category(".jpg") == "Images"
  {
    LowerOfLowered(".jpg");
    CategoryInFirst(FILE_CATEGORIES, ".jpg", 0);
  }

  /** `get_file_category('.xyz')` is "Other". */
  lemma XyzIsOther()
    ensures Category(".xyz") == OTHER
  {
    LowerOfLowered(".xyz");
    CategoryInMissing(FILE_CATEGORIES, ".xyz");
  }

  /** Extensions are matched without regard to case. */
  lemma CategoryIgnoresCase(ext: string)
    ensures Category(ext) == Category(Lower(ext))
  {
    LowerIsLowered(ext);
  }

  // ---------------------------------------------------------------------------
  // os.path.splitext
  // ---------------------------------------------------------------------------

  /** `s.rfind(c)`: the last position of `c`, or -1. */
  function RFind(s: string, c: char): (r: int)
    ensures -1 <= r < |s|
    ensures r >= 0 ==> s[r] == c
    ensures forall k :: r < k < |s| ==> s[k] != c
    decreases |s|
  {
    if |s| == 0 then -1
    else if s[|s| - 1] == c then |s| - 1
    else RFind(s[..|s| - 1], c)
  }

  predicate AllDots(s: string) {
    forall k :: 0 <= k < |s| ==> s[k] == '.'
  }

  /**
   * `os.path.splitext` with `/` as separator: the extension runs from the
   * last dot of the last path component, unless everything before that dot
   * in the component is dots.
   */
  function SplitExt(p: string): (string, string) {
    var sepIndex := RFind(p, '/');
    var dotIndex := RFind(p, '.');
    if dotIndex > sepIndex && !AllDots(p[sepIndex + 1..dotIndex]) then
      (p[..dotIndex], p[dotIndex..])
    else
      (p, "")
  }

  /** An extension: empty, or one dot followed by no dot and no separator. */
  predicate IsExt(e: string) {
    e == [] || (e[0] == '.' && forall k :: 1 <= k < |e| ==> e[k] != '.' && e[k] != '/')
  }

  /** Root and extension put back together give the name, and the extension is one. */
  lemma SplitExtJoin(p: string)
    ensures SplitExt(p).0 + SplitExt(p).1 == p
    ensures IsExt(SplitExt(p).1)
  {
  }

  lemma AllDotsSlice(p: string, lo: nat, hi: nat)
    requires lo <= hi <= |p|
    ensures AllDots(p[lo..hi]) <==> forall k :: lo <= k < hi ==> p[k] == '.'
  {
    assert forall k :: lo <= k < hi ==> p[lo..hi][k - lo] == p[k];
  }

  /**
   * The extension is non-empty exactly when the last dot of the name comes
   * after its last separator with some non-dot character between the two.
   */
  lemma SplitExtCases(p: string)
    ensures var sep, dot := RFind(p, '/'), RFind(p, '.');
            SplitExt(p).1 != "" <==> exists k :: sep < k < dot && p[k] != '.'
  {
    var sep, dot := RFind(p, '/'), RFind(p, '.');
    if dot > sep {
      AllDotsSlice(p, sep + 1, dot);
    }
  }

  /** A non-empty extension runs from the last dot to the end; otherwise the root is the whole name. */
  lemma SplitExtParts(p: string)
    ensures var dot := RFind(p, '.');
            SplitExt(p).1 != "" ==> 0 <= dot && SplitExt(p) == (p[..dot], p[dot..])
    ensures SplitExt(p).1 == "" ==> SplitExt(p).0 == p
  {
  }

  /** `report.pdf` has the extension `.pdf`. */
  lemma SplitExtOfReport()
    ensures SplitExt("report.pdf") == ("report", ".pdf")
  {
    var p := "report.pdf";
    RFindNone(p, '/');
    RFindAt(p, '.', 6);
    assert !AllDots(p[0..6]) by { assert p[0..6][0] == 'r'; }
    assert p[..6] == "report" && p[6..] == ".pdf";
  }

  /** Only the last extension is split off. */
  lemma SplitExtOfArchive()
    ensures SplitExt("archive.tar.gz") == ("archive.tar", ".gz")
  {
    var p := "archive.tar.gz";
    RFindNone(p, '/');
    RFindAt(p, '.', 11);
    assert !AllDots(p[0..11]) by { assert p[0..11][0] == 'a'; }
    assert p[..11] == "archive.tar" && p[11..] == ".gz";
  }

  /** A leading dot does not start an extension, and a name without a dot has none. */
  lemma SplitExtOfDotless()
    ensures SplitExt(".bashrc") == (".bashrc", "")
    ensures SplitExt("notes") == ("notes", "")
  {
    RFindNone(".bashrc", '/');
    RFindAt(".bashrc", '.', 0);
    RFindNone("notes", '/');
    RFindNone("notes", '.');
  }

  lemma RFindAt(s: string, c: char, k: nat)
    requires k < |s| && s[k] == c
    requires forall j :: k < j < |s| ==> s[j] != c
    ensures RFind(s, c) == k
  {
  }

  lemma RFindNone(s: string, c: char)
    requires forall j :: 0 <= j < |s| ==> s[j] != c
    ensures RFind(s, c) == -1
  {
  }

  // ---------------------------------------------------------------------------
  // Free names on a conflict
  // ---------------------------------------------------------------------------

  /** `f"{name}_{counter}{ext}"`. */
  function Candidate(root: string, k: nat, ext: string): string {
    root + "_" + IntText(k) + ext
  }

  /** Different counters give different names. */
  lemma CandidateInjective(root: string, ext: string, a: nat, b: nat)
    requires Candidate(root, a, ext) == Candidate(root, b, ext)
    ensures a == b
  {
    var s := Candidate(root, a, ext);
    var da, db := Decimal(a), Decimal(b);
    assert |da| == |db|;
    var lo := |root| + 1;
    assert s[lo..lo + |da|] == da;
    assert Candidate(root, b, ext)[lo..lo + |db|] == db;
  }

  /** The candidates for counters 1 up to `n` - 1. */
  function Tried(root: string, ext: string, n: nat): set<string> {
    set j | 1 <= j < n :: Candidate(root, j, ext)
  }

  /** The candidates up to `n` are those below `n` and the one for `n`. */
  lemma TriedStep(root: string, ext: string, n: nat)
    requires n >= 1
    ensures Tried(root, ext, n + 1) == Tried(root, ext, n) + {Candidate(root, n, ext)}
  {
  }

  /** The candidate for `n` is none of those below it. */
  lemma TriedFresh(root: string, ext: string, n: nat)
    ensures Candidate(root, n, ext) !in Tried(root, ext, n)
  {
    if Candidate(root, n, ext) in Tried(root, ext, n) {
      var j :| 1 <= j < n && Candidate(root, j, ext) == Candidate(root, n, ext);
      CandidateInjective(root, ext, j, n);
    }
  }

  lemma {:induction false} TriedSize(root: string, ext: string, n: nat)
    requires n >= 1
    ensures |Tried(root, ext, n)| == n - 1
  {
    if n > 1 {
      TriedSize(root, ext, n - 1);
      TriedStep(root, ext, n - 1);
      TriedFresh(root, ext, n - 1);
    } else {
      assert Tried(root, ext, n) == {};
    }
  }

  lemma {:induction false} SubsetSize<T>(a: set<T>, b: set<T>)
    requires a <= b
    ensures |a| <= |b|
    decreases |a|
  {
    if a != {} {
      var x :| x in a;
      SubsetSize(a - {x}, b - {x});
    }
  }

  /** A folder cannot hold more taken candidates than names. */
  lemma TakenBound(contents: set<string>, root: string, ext: string, n: nat)
    requires n >= 1 && forall j :: 1 <= j < n ==> Candidate(root, j, ext) in contents
    ensures n <= |contents| + 1
  {
    TriedSize(root, ext, n);
    assert Tried(root, ext, n) <= contents;
    SubsetSize(Tried(root, ext, n), contents);
  }

  /** The least counter from `k` on whose candidate `contents` does not hold. */
  function FreeFrom(contents: set<string>, root: string, ext: string, k: nat): (r: nat)
    requires k >= 1 && forall j :: 1 <= j < k ==> Candidate(root, j, ext) in contents
    ensures r >= k && Candidate(root, r, ext) !in contents
    ensures forall j :: 1 <= j < r ==> Candidate(root, j, ext) in contents
    decreases |contents| + 1 - k
  {
    TakenBound(contents, root, ext, k);
    if Candidate(root, k, ext) in contents then
      TakenBound(contents, root, ext, k + 1);
      FreeFrom(contents, root, ext, k + 1)
    else
      k
  }

  /** The least free counter is unique. */
  lemma LeastFreeUnique(contents: set<string>, root: string, ext: string, a: nat, b: nat)
    requires a >= 1 && Candidate(root, a, ext) !in contents && forall j :: 1 <= j < a ==> Candidate(root, j, ext) in contents
    requires b >= 1 && Candidate(root, b, ext) !in contents && forall j :: 1 <= j < b ==> Candidate(root, j, ext) in contents
    ensures a == b
  {
  }

  /** The `while` loop of the conflict handling: the least counter from 1 whose name is free. */
  method FreeCounter(contents: set<string>, root: string, ext: string) returns (counter: nat)
    ensures counter >= 1 && Candidate(root, counter, ext) !in contents
    ensures forall j :: 1 <= j < counter ==> Candidate(root, j, ext) in contents
    ensures counter == FreeFrom(contents, root, ext, 1)
  {
    counter := 1;
    while Candidate(root, counter, ext) in contents
      invariant counter >= 1 && forall j :: 1 <= j < counter ==> Candidate(root, j, ext) in contents
      invariant counter <= |contents| + 1
      decreases |contents| + 1 - counter
    {
      TakenBound(contents, root, ext, counter + 1);
      counter := counter + 1;
    }
    LeastFreeUnique(contents, root, ext, counter, FreeFrom(contents, root, ext, 1));
  }

  /** The name a file moved into a folder holding `contents` ends up with. */
  function FreeName(contents: set<string>, item: string): (r: string)
    ensures r !in contents
  {
    if item !in contents then item
    else
      var (root, ext) := SplitExt(item);
      Candidate(root, FreeFrom(contents, root, ext, 1), ext)
  }

  /** A renamed candidate keeps the extension it was built with. */
  lemma CandidateKeepsExt(root: string, k: nat, ext: string)
    requires ext != "" && IsExt(ext)
    ensures SplitExt(Candidate(root, k, ext)) == (root + "_" + IntText(k), ext)
  {
    var d := Decimal(k);
    var pre := root + "_" + d;
    var c := pre + ext;
    assert c == Candidate(root, k, ext);
    RFindAt(c, '.', |pre|);
    var sep := RFind(c, '/');
    assert sep < |pre| - 1 by {
      assert c[|pre| - 1] == d[|d| - 1];
    }
    assert c[sep + 1..|pre|][|pre| - 1 - (sep + 1)] == d[|d| - 1];
    assert c[..|pre|] == pre && c[|pre|..] == ext;
  }

  /** A file renamed on a conflict lands in the same category. */
  lemma FreeNameKeepsCategory(contents: set<string>, item: string)
    requires SplitExt(item).1 != ""
    ensures SplitExt(FreeName(contents, item)).1 == SplitExt(item).1
  {
    if item in contents {
      var (root, ext) := SplitExt(item);
      SplitExtJoin(item);
      CandidateKeepsExt(root, FreeFrom(contents, root, ext, 1), ext);
    }
  }

  // ---------------------------------------------------------------------------
  // organize_files
  // ---------------------------------------------------------------------------

  /** The directory being organized: its regular files, and its sub-directories with the names inside each. */
  datatype Disk = Disk(files: set<string>, folders: map<string, set<string>>)

  /** No name is both a file and a sub-directory. */
  predicate WellFormed(d: Disk) {
    d.files !! d.folders.Keys
  }

  /** The counters of `organize_files` and its per-category `stats`. */
  datatype Counts = Counts(organized: nat, skipped: nat, errors: nat, stats: map<string, nat>)

  /** The directory and the counters after some of the items. */
  datatype State = State(disk: Disk, counts: Counts)

  const NO_COUNTS := Counts(0, 0, 0, map[])

  /** `stats[category] += 1` on a `defaultdict(int)`. */
  function Bump(stats: map<string, nat>, key: string): map<string, nat> {
    stats[key := (if key in stats then stats[key] else 0) + 1]
  }

  /** `item.startswith('.')`. */
  predicate Hidden(item: string) {
    |item| > 0 && item[0] == '.'
  }

  /** The move of `item` into the folder `category`, or an error when it raises. */
  function Place(d: Disk, c: Counts, item: string, category: string, i: nat, moveOk: nat -> bool): State {
    if category in d.folders && item in d.files && moveOk(i) then
      var destination := FreeName(d.folders[category], item);
      State(Disk(d.files - {item}, d.folders[category := d.folders[category] + {destination}]),
            c.(organized := c.organized + 1))
    else
      State(d, c.(errors := c.errors + 1))
  }

  /**
   * One pass of the loop body of `organize_files` on the item at position
   * `i` of the listing.
   */
  function Step(s: State, item: string, i: nat, mkdirOk: nat -> bool, moveOk: nat -> bool): State {
    var ext := SplitExt(item).1;
    Visit(s, item, ext, Category(ext), i, mkdirOk, moveOk)
  }

  /**
   * The loop body once the item's extension and category are known. A
   * directory or a hidden name is passed over; a name without extension is
   * skipped; otherwise the category is counted, its folder created when
   * nothing of that name exists, and the file moved.
   */
  function Visit(s: State, item: string, ext: string, category: string, i: nat, mkdirOk: nat -> bool, moveOk: nat -> bool): State {
    if item in s.disk.folders || Hidden(item) then s
    else if ext == "" then s.(counts := s.counts.(skipped := s.counts.skipped + 1))
    else
      var c := s.counts.(stats := Bump(s.counts.stats, category));
      if category !in s.disk.files && category !in s.disk.folders then
        if mkdirOk(i) then Place(s.disk.(folders := s.disk.folders[category := {}]), c, item, category, i, moveOk)
        else State(s.disk, c.(errors := c.errors + 1))
      else
        Place(s.disk, c, item, category, i, moveOk)
  }

  /** The state after the loop has run over `items`. */
  function Run(d: Disk, items: seq<string>, mkdirOk: nat -> bool, moveOk: nat -> bool): State
    decreases |items|
  {
    if |items| == 0 then State(d, NO_COUNTS)
    else
      var n := |items| - 1;
      Step(Run(d, items[..n], mkdirOk, moveOk), items[n], n, mkdirOk, moveOk)
  }

  lemma RunPrefix(d: Disk, items: seq<string>, i: nat, mkdirOk: nat -> bool, moveOk: nat -> bool)
    requires i < |items|
    ensures Run(d, items[..i + 1], mkdirOk, moveOk) == Step(Run(d, items[..i], mkdirOk, moveOk), items[i], i, mkdirOk, moveOk)
  {
    assert items[..i + 1][..i] == items[..i];
  }

  /**
   * `organize_files`: False, with nothing changed, when the listing raises
   * PermissionError; otherwise True, with the directory and counters the
   * loop leaves.
   */
  method OrganizeFiles(disk: Disk, listing: Option<seq<string>>, mkdirOk: nat -> bool, moveOk: nat -> bool)
    returns (ok: bool, after: Disk, counts: Counts)
    ensures ok <==> listing.Some?
    ensures listing.None? ==> after == disk && counts == NO_COUNTS
    ensures listing.Some? ==> State(after, counts) == Run(disk, listing.value, mkdirOk, moveOk)
  {
    var organized, skipped, errors: nat := 0, 0, 0;
    var stats: map<string, nat> := map[];
    var files, folders := disk.files, disk.folders;
    if listing.None? {
      return false, disk, NO_COUNTS;
    }
    var items := listing.value;
    for i := 0 to |items|
      invariant State(Disk(files, folders), Counts(organized, skipped, errors, stats)) == Run(disk, items[..i], mkdirOk, moveOk)
    {
      RunPrefix(disk, items, i, mkdirOk, moveOk);
      ghost var s := State(Disk(files, folders), Counts(organized, skipped, errors, stats));
      var item := items[i];
      ghost var e := SplitExt(item).1;
      assert Step(s, item, i, mkdirOk, moveOk) == Visit(s, item, e, Category(e), i, mkdirOk, moveOk);
      if item in folders || Hidden(item) {
        VisitSkips(s, item, e, Category(e), i, mkdirOk, moveOk);
        continue;
      }
      var ext := SplitExt(item).1;
      if ext == "" {
        VisitSkips(s, item, e, Category(e), i, mkdirOk, moveOk);
        skipped := skipped + 1;
        continue;
      }
      var category := Category(ext);
      stats := Bump(stats, category);
      ghost var c := Counts(organized, skipped, errors, stats);
      if category !in files && category !in folders {
        if !mkdirOk(i) {
          VisitNoFolder(s, item, ext, category, i, mkdirOk, moveOk);
          errors := errors + 1;
          continue;
        }
        folders := folders[category := {}];
      }
      VisitPlaces(s, item, ext, category, i, mkdirOk, moveOk);
      var destination := item;
      if category in folders && item in folders[category] {
        var root := SplitExt(item).0;
        var counter := FreeCounter(folders[category], root, ext);
        destination := Candidate(root, counter, ext);
      }
      PlaceAs(Disk(files, folders), c, item, category, i, moveOk, destination);
      if category in folders && item in files && moveOk(i) {
        files := files - {item};
        folders := folders[category := folders[category] + {destination}];
        organized := organized + 1;
      } else {
        errors := errors + 1;
      }
    }
    assert items[..|items|] == items;
    return true, Disk(files, folders), Counts(organized, skipped, errors, stats);
  }

  /** When the category folder is missing and cannot be made, the pass counts an error. */
  lemma VisitNoFolder(s: State, item: string, ext: string, category: string, i: nat, mkdirOk: nat -> bool, moveOk: nat -> bool)
    requires item !in s.disk.folders && !Hidden(item) && ext != ""
    requires category !in s.disk.files && category !in s.disk.folders && !mkdirOk(i)
    ensures var c := s.counts.(stats := Bump(s.counts.stats, category));
            Visit(s, item, ext, category, i, mkdirOk, moveOk) == State(s.disk, c.(errors := c.errors + 1))
  {
  }

  /** Otherwise the pass is a move attempt, into a folder created first when nothing of that name exists. */
  lemma VisitPlaces(s: State, item: string, ext: string, category: string, i: nat, mkdirOk: nat -> bool, moveOk: nat -> bool)
    requires item !in s.disk.folders && !Hidden(item) && ext != ""
    requires category in s.disk.files || category in s.disk.folders || mkdirOk(i)
    ensures var c := s.counts.(stats := Bump(s.counts.stats, category));
            var d := if category in s.disk.files || category in s.disk.folders then s.disk
                     else s.disk.(folders := s.disk.folders[category := {}]);
            Visit(s, item, ext, category, i, mkdirOk, moveOk) == Place(d, c, item, category, i, moveOk)
  {
  }

  /** The move attempt, with the destination name worked out by the conflict loop. */
  lemma PlaceAs(d: Disk, c: Counts, item: string, category: string, i: nat, moveOk: nat -> bool, destination: string)
    requires category in d.folders ==> destination == FreeName(d.folders[category], item)
    ensures Place(d, c, item, category, i, moveOk) ==
            if category in d.folders && item in d.files && moveOk(i) then
              State(Disk(d.files - {item}, d.folders[category := d.folders[category] + {destination}]), c.(organized := c.organized + 1))
            else
              State(d, c.(errors := c.errors + 1))
  {
  }

  // ---------------------------------------------------------------------------
  // What one pass of the loop does
  // ---------------------------------------------------------------------------

  /** Directories and hidden names change nothing; a name without extension only counts as skipped. */
  lemma VisitSkips(s: State, item: string, ext: string, category: string, i: nat, mkdirOk: nat -> bool, moveOk: nat -> bool)
    ensures item in s.disk.folders || Hidden(item) ==> Visit(s, item, ext, category, i, mkdirOk, moveOk) == s
    ensures item !in s.disk.folders && !Hidden(item) && ext == "" ==>
              Visit(s, item, ext, category, i, mkdirOk, moveOk) == s.(counts := s.counts.(skipped := s.counts.skipped + 1))
  {
  }

  /**
   * An item with an extension adds one to its category's count and ends in
   * exactly one of organized or error; nothing else is counted.
   */
  lemma VisitCounts(s: State, item: string, ext: string, category: string, i: nat, mkdirOk: nat -> bool, moveOk: nat -> bool)
    requires item !in s.disk.folders && !Hidden(item) && ext != ""
    ensures var t := Visit(s, item, ext, category, i, mkdirOk, moveOk).counts;
            && t.stats == Bump(s.counts.stats, category)
            && t.skipped == s.counts.skipped
            && (|| (t.organized == s.counts.organized + 1 && t.errors == s.counts.errors)
                || (t.organized == s.counts.organized && t.errors == s.counts.errors + 1))
  {
    var c := s.counts.(stats := Bump(s.counts.stats, category));
    if category !in s.disk.files && category !in s.disk.folders {
      if mkdirOk(i) {
        PlaceCounts(s.disk.(folders := s.disk.folders[category := {}]), c, item, category, i, moveOk);
      }
    } else {
      PlaceCounts(s.disk, c, item, category, i, moveOk);
    }
  }

  /** A move attempt ends in exactly one of organized or error. */
  lemma PlaceCounts(d: Disk, c: Counts, item: string, category: string, i: nat, moveOk: nat -> bool)
    ensures var t := Place(d, c, item, category, i, moveOk).counts;
            || t == c.(organized := c.organized + 1)
            || t == c.(errors := c.errors + 1)
  {
  }

  /** A move that succeeds takes the file out of the top level and into the folder under a free name. */
  lemma PlaceMoves(d: Disk, c: Counts, item: string, ext: string, category: string, i: nat, moveOk: nat -> bool)
    requires ext == SplitExt(item).1 && ext != ""
    ensures var t := Place(d, c, item, category, i, moveOk);
            if t.counts.organized == c.organized + 1 then
              && category in d.folders && item in d.files && t.disk.files == d.files - {item}
              && FreeName(d.folders[category], item) !in d.folders[category]
              && SplitExt(FreeName(d.folders[category], item)).1 == ext
              && t.disk.folders == d.folders[category := d.folders[category] + {FreeName(d.folders[category], item)}]
            else
              t.counts.organized == c.organized && t.disk == d
  {
    if category in d.folders {
      FreeNameKeepsCategory(d.folders[category], item);
    }
  }

  /**
   * A file counted as organized has left the top level and sits in its
   * category folder under a name that was free there, with its extension
   * kept.
   */
  lemma VisitMoves(s: State, item: string, ext: string, category: string, i: nat, mkdirOk: nat -> bool, moveOk: nat -> bool)
    requires ext == SplitExt(item).1
    requires Visit(s, item, ext, category, i, mkdirOk, moveOk).counts.organized == s.counts.organized + 1
    ensures var t := Visit(s, item, ext, category, i, mkdirOk, moveOk);
            var before := if category in s.disk.folders then s.disk.folders[category] else {};
            && item in s.disk.files && t.disk.files == s.disk.files - {item}
            && FreeName(before, item) !in before
            && SplitExt(FreeName(before, item)).1 == ext
            && t.disk.folders == s.disk.folders[category := before + {FreeName(before, item)}]
  {
    if item !in s.disk.folders && !Hidden(item) && ext != "" {
      var c := s.counts.(stats := Bump(s.counts.stats, category));
      if category !in s.disk.files && category !in s.disk.folders {
        if mkdirOk(i) {
          var d := s.disk.(folders := s.disk.folders[category := {}]);
          PlaceMoves(d, c, item, ext, category, i, moveOk);
          assert d.folders[category] == {};
          assert d.folders[category := {} + {FreeName({}, item)}] == s.disk.folders[category := {} + {FreeName({}, item)}];
        }
      } else {
        PlaceMoves(s.disk, c, item, ext, category, i, moveOk);
      }
    }
  }

  /** A move that does not succeed changes nothing on disk. */
  lemma PlaceKeeps(d: Disk, c: Counts, item: string, category: string, i: nat, moveOk: nat -> bool)
    requires Place(d, c, item, category, i, moveOk).counts.organized != c.organized + 1
    ensures Place(d, c, item, category, i, moveOk).disk == d
  {
  }

  /** Any other pass leaves the files as they were and at most adds an empty category folder. */
  lemma VisitKeeps(s: State, item: string, ext: string, category: string, i: nat, mkdirOk: nat -> bool, moveOk: nat -> bool)
    requires Visit(s, item, ext, category, i, mkdirOk, moveOk).counts.organized != s.counts.organized + 1
    ensures var t := Visit(s, item, ext, category, i, mkdirOk, moveOk);
            && t.counts.organized == s.counts.organized
            && t.disk.files == s.disk.files
            && (t.disk.folders == s.disk.folders || (category !in s.disk.folders && t.disk.folders == s.disk.folders[category := {}]))
  {
    if item !in s.disk.folders && !Hidden(item) && ext != "" {
      var c := s.counts.(stats := Bump(s.counts.stats, category));
      if category !in s.disk.files && category !in s.disk.folders {
        if mkdirOk(i) {
          PlaceKeeps(s.disk.(folders := s.disk.folders[category := {}]), c, item, category, i, moveOk);
        }
      } else {
        PlaceKeeps(s.disk, c, item, category, i, moveOk);
      }
    }
  }

  /** No pass makes a name both a file and a folder. */
  lemma VisitWellFormed(s: State, item: string, ext: string, category: string, i: nat, mkdirOk: nat -> bool, moveOk: nat -> bool)
    requires WellFormed(s.disk)
    ensures WellFormed(Visit(s, item, ext, category, i, mkdirOk, moveOk).disk)
  {
  }

  // ---------------------------------------------------------------------------
  // What the whole loop does
  // ---------------------------------------------------------------------------

  /** The sum of `stats` over `names`. */
  function TotalOver(stats: map<string, nat>, names: seq<string>): nat
    decreases |names|
  {
    if |names| == 0 then 0
    else
      var n := |names| - 1;
      TotalOver(stats, names[..n]) + (if names[n] in stats then stats[names[n]] else 0)
  }

  predicate Distinct(names: seq<string>) {
    forall i, j :: 0 <= i < j < |names| ==> names[i] != names[j]
  }

  lemma CategoryNamesDistinct()
    ensures Distinct(CATEGORY_NAMES)
  {
  }

  lemma {:induction false} TotalOverEmpty(names: seq<string>)
    ensures TotalOver(map[], names) == 0
    decreases |names|
  {
    if |names| > 0 {
      TotalOverEmpty(names[..|names| - 1]);
    }
  }

  lemma {:induction false} TotalOverUntouched(stats: map<string, nat>, names: seq<string>, key: string)
    requires key !in names
    ensures TotalOver(Bump(stats, key), names) == TotalOver(stats, names)
    decreases |names|
  {
    if |names| > 0 {
      var n := |names| - 1;
      assert names[n] in names;
      assert forall x :: x in names[..n] ==> x in names;
      TotalOverUntouched(stats, names[..n], key);
    }
  }

  /** Bumping a listed category adds one to the total. */
  lemma {:induction false} TotalOverBump(stats: map<string, nat>, names: seq<string>, key: string)
    requires key in names && Distinct(names)
    ensures TotalOver(Bump(stats, key), names) == TotalOver(stats, names) + 1
    decreases |names|
  {
    var n := |names| - 1;
    var init := names[..n];
    assert Distinct(init);
    if names[n] == key {
      assert key !in init;
      TotalOverUntouched(stats, init, key);
    } else {
      assert names == init + [names[n]];
      assert key in init;
      TotalOverBump(stats, init, key);
    }
  }

  /**
   * Over the whole loop: every item adds to at most one of organized,
   * skipped and error; `stats` only holds category names; and its total is
   * organized plus errors.
   */
  lemma {:induction false} RunCounts(d: Disk, items: seq<string>, mkdirOk: nat -> bool, moveOk: nat -> bool)
    ensures var c := Run(d, items, mkdirOk, moveOk).counts;
            && c.organized + c.skipped + c.errors <= |items|
            && (forall k :: k in c.stats ==> k in CATEGORY_NAMES)
            && TotalOver(c.stats, CATEGORY_NAMES) == c.organized + c.errors
    decreases |items|
  {
    if |items| > 0 {
      var n := |items| - 1;
      RunCounts(d, items[..n], mkdirOk, moveOk);
      var s := Run(d, items[..n], mkdirOk, moveOk);
      var item := items[n];
      var ext := SplitExt(item).1;
      VisitSkips(s, item, ext, Category(ext), n, mkdirOk, moveOk);
      if item !in s.disk.folders && !Hidden(item) && ext != "" {
        VisitCounts(s, item, ext, Category(ext), n, mkdirOk, moveOk);
        CategoryIsKnown(ext);
        CategoryNamesDistinct();
        TotalOverBump(s.counts.stats, CATEGORY_NAMES, Category(ext));
      }
    } else {
      TotalOverEmpty(CATEGORY_NAMES);
    }
  }

  /** The last pass of the loop, with the item's extension and category named. */
  lemma RunLast(d: Disk, items: seq<string>, mkdirOk: nat -> bool, moveOk: nat -> bool)
    requires |items| > 0
    ensures var n := |items| - 1;
            var ext := SplitExt(items[n]).1;
            Run(d, items, mkdirOk, moveOk) == Visit(Run(d, items[..n], mkdirOk, moveOk), items[n], ext, Category(ext), n, mkdirOk, moveOk)
  {
  }

  /** Over the whole loop: files only leave the top level, one per organized item. */
  lemma {:induction false} RunFiles(d: Disk, items: seq<string>, mkdirOk: nat -> bool, moveOk: nat -> bool)
    ensures var t := Run(d, items, mkdirOk, moveOk);
            && t.disk.files <= d.files
            && |t.disk.files| + t.counts.organized == |d.files|
    decreases |items|
  {
    if |items| > 0 {
      var n := |items| - 1;
      RunFiles(d, items[..n], mkdirOk, moveOk);
      RunLast(d, items, mkdirOk, moveOk);
      var s := Run(d, items[..n], mkdirOk, moveOk);
      var ext := SplitExt(items[n]).1;
      var category := Category(ext);
      if Visit(s, items[n], ext, category, n, mkdirOk, moveOk).counts.organized == s.counts.organized + 1 {
        VisitMoves(s, items[n], ext, category, n, mkdirOk, moveOk);
      } else {
        VisitKeeps(s, items[n], ext, category, n, mkdirOk, moveOk);
      }
    }
  }

  /** Over the whole loop: folders are only created or added to. */
  lemma {:induction false} RunFolders(d: Disk, items: seq<string>, mkdirOk: nat -> bool, moveOk: nat -> bool)
    ensures var t := Run(d, items, mkdirOk, moveOk);
            forall k :: k in d.folders ==> k in t.disk.folders && d.folders[k] <= t.disk.folders[k]
    decreases |items|
  {
    if |items| > 0 {
      var n := |items| - 1;
      RunFolders(d, items[..n], mkdirOk, moveOk);
      RunLast(d, items, mkdirOk, moveOk);
      var s := Run(d, items[..n], mkdirOk, moveOk);
      var ext := SplitExt(items[n]).1;
      var category := Category(ext);
      if Visit(s, items[n], ext, category, n, mkdirOk, moveOk).counts.organized == s.counts.organized + 1 {
        VisitMoves(s, items[n], ext, category, n, mkdirOk, moveOk);
      } else {
        VisitKeeps(s, items[n], ext, category, n, mkdirOk, moveOk);
      }
    }
  }

  /** Over the whole loop: no name becomes both a file and a folder. */
  lemma {:induction false} RunWellFormed(d: Disk, items: seq<string>, mkdirOk: nat -> bool, moveOk: nat -> bool)
    requires WellFormed(d)
    ensures WellFormed(Run(d, items, mkdirOk, moveOk).disk)
    decreases |items|
  {
    if |items| > 0 {
      var n := |items| - 1;
      RunWellFormed(d, items[..n], mkdirOk, moveOk);
      RunLast(d, items, mkdirOk, moveOk);
      var ext := SplitExt(items[n]).1;
      VisitWellFormed(Run(d, items[..n], mkdirOk, moveOk), items[n], ext, Category(ext), n, mkdirOk, moveOk);
    }
  }

  /**
   * `main`: exit 1 with the usage message when no directory is given;
   * otherwise organize it and exit 0, whatever `organize_files` returned.
   */
  method OrganizerMain(argv: seq<string>, disk: Disk, listing: Option<seq<string>>, mkdirOk: nat -> bool, moveOk: nat -> bool)
    returns (status: int, after: Disk, counts: Counts)
    ensures |argv| < 2 ==> status == 1 && after == disk && counts == NO_COUNTS
    ensures |argv| >= 2 ==> status == 0
    ensures |argv| >= 2 && listing.Some? ==> State(after, counts) == Run(disk, listing.value, mkdirOk, moveOk)
  {
    if |argv| < 2 {
      return 1, disk, NO_COUNTS;
    }
    var ok;
    ok, after, counts := OrganizeFiles(disk, listing, mkdirOk, moveOk);
    status := 0;
  }
}
