/** Where the pages of a source are filed, how they are linked to, and what a vault holds of them. */
module FilingPaths {
  import opened Results
  import NoteLinks

  // ----- Where a filed page belongs -----

  /** The last slash, or nothing before it if there is none: `s.rpartition("/")`. */
  function Parent(s: string): string {
    if s == "" then "" else if s[|s| - 1] == '/' then s[..|s| - 1] else Parent(s[..|s| - 1])
  }

  function Name(s: string): string {
    if s == "" || s[|s| - 1] == '/' then "" else Name(s[..|s| - 1]) + [s[|s| - 1]]
  }

  predicate IsDigit(c: char) {
    '0' <= c <= '9'
  }

  /** 26 digits and capital letters, without I, L, O and U. */
  predicate ValidId(id: string) {
    && |id| == 26 && '0' <= id[0] <= '7'
    && forall c | c in id :: IsDigit(c) || ('A' <= c <= 'Z' && c !in "ILOU")
  }

  /** `[0-9]{4}-(0[1-9]|1[0-2])` */
  predicate IsMonth(s: string) {
    && |s| == 7 && s[4] == '-'
    && IsDigit(s[0]) && IsDigit(s[1]) && IsDigit(s[2]) && IsDigit(s[3])
    && ((s[5] == '0' && '1' <= s[6] <= '9') || (s[5] == '1' && '0' <= s[6] <= '2'))
  }

  function Nested(folder: string, month: string, name: string): string
    requires |month| >= 4
  {
    folder + "/" + month[..4] + "/" + month + "/" + name
  }

  /** Whether a page was filed flat, in a month folder right under the sources. */
  predicate FiledFlat(sources: string, filed: string) {
    Parent(Parent(filed)) == sources && IsMonth(Name(Parent(filed)))
  }

  function FiledPath(sources: string, filed: string, id: string, month: string): string
    requires |month| >= 4
  {
    if filed == "" then Nested(sources, month, id + ".md")
    else if FiledFlat(sources, filed) then Nested(sources, Name(Parent(filed)), Name(filed))
    else filed
  }

  lemma {:induction false} PathParts(folder: string, name: string)
    requires '/' !in name
    ensures Parent(folder + "/" + name) == folder && Name(folder + "/" + name) == name
  {
    var s := folder + "/" + name;
    if name == "" {
      assert s[..|s| - 1] == folder && s[|s| - 1] == '/';
    } else {
      var init, c := name[..|name| - 1], name[|name| - 1];
      assert name == init + [c] && c in name;
      assert s[..|s| - 1] == folder + "/" + init && s[|s| - 1] == c;
      PathParts(folder, init);
    }
  }

  lemma {:induction false} NameHasNoSlash(s: string)
    ensures '/' !in Name(s)
  {
    if s != "" && s[|s| - 1] != '/' {
      NameHasNoSlash(s[..|s| - 1]);
    }
  }

  lemma NestedParts(folder: string, month: string, name: string)
    requires |month| >= 4 && '/' !in month && '/' !in name
    ensures Name(Nested(folder, month, name)) == name && Name(Parent(Nested(folder, month, name))) == month
    ensures Parent(Parent(Nested(folder, month, name))) == folder + "/" + month[..4]
    ensures Nested(folder, month, name) != ""
  {
    PathParts(folder + "/" + month[..4] + "/" + month, name);
    PathParts(folder + "/" + month[..4], month);
  }

  /** A filed page stays where it is, whatever month the note gets later. */
  lemma FiledPathIsStable(sources: string, filed: string, id: string, month: string, later: string)
    requires |month| >= 4 && '/' !in month && '/' !in id && |later| >= 4
    ensures FiledPath(sources, FiledPath(sources, filed, id, month), id, later) == FiledPath(sources, filed, id, month)
  {
    hide Parent, Name, IsMonth, Nested;
    if filed == "" {
      NestedIsNotFlat(sources, month, id + ".md");
    } else if FiledFlat(sources, filed) {
      var m := Name(Parent(filed));
      NameHasNoSlash(Parent(filed));
      NameHasNoSlash(filed);
      MonthLength(m);
      NestedIsNotFlat(sources, m, Name(filed));
    }
  }

  lemma MonthLength(m: string)
    ensures IsMonth(m) ==> |m| == 7
  {
  }

  lemma NestedIsNotFlat(sources: string, month: string, name: string)
    requires |month| >= 4 && '/' !in month && '/' !in name
    ensures Nested(sources, month, name) != "" && !FiledFlat(sources, Nested(sources, month, name))
  {
    NestedParts(sources, month, name);
    assert |sources + "/" + month[..4]| > |sources|;
  }

  /** A page filed before keeps its month; only a flat one is carried into its year folder. */
  lemma FiledPageKeepsItsMonth(sources: string, filed: string, id: string, month: string)
    requires filed != "" && |month| >= 4
    ensures Name(FiledPath(sources, filed, id, month)) == Name(filed)
    ensures Name(Parent(FiledPath(sources, filed, id, month))) == Name(Parent(filed))
  {
    if FiledFlat(sources, filed) {
      NameHasNoSlash(Parent(filed));
      NameHasNoSlash(filed);
      NestedParts(sources, Name(Parent(filed)), Name(filed));
    }
  }

  /**
   A page filed for the first time gets its source's name, in the folder of the month, in that of the
   year, under the sources; a flat one keeps name and month there; any other one stays.
   */
  lemma FiledPlace(sources: string, filed: string, id: string, month: string)
    requires IsMonth(month) && '/' !in id
    ensures var p := FiledPath(sources, filed, id, month);
      if filed != "" && !FiledFlat(sources, filed) then p == filed
      else
        && Name(p) == (if filed == "" then id + ".md" else Name(filed))
        && Name(Parent(p)) == (if filed == "" then month else Name(Parent(filed)))
        && Name(Parent(Parent(p))) == Name(Parent(p))[..4] && Parent(Parent(Parent(p))) == sources
  {
    hide Parent, Name, Nested;
    MonthHasNoBracket(month);
    NameHasNoSlash(Parent(filed));
    NameHasNoSlash(filed);
    if filed == "" {
      NestedParts(sources, month, id + ".md");
      PathParts(sources, month[..4]);
    } else if FiledFlat(sources, filed) {
      NestedParts(sources, Name(Parent(filed)), Name(filed));
      YearHasNoSlash(Name(Parent(filed)));
      PathParts(sources, Name(Parent(filed))[..4]);
    }
  }

  lemma YearHasNoSlash(month: string)
    requires '/' !in month && |month| >= 4
    ensures '/' !in month[..4]
  {
  }

  // ----- Links to filed pages -----

  /** Where a source's page is first placed: under the day and title of its note, brackets and all. */
  function PendingPath(sources: string, month: string, stem: string): string
    requires |month| >= 4
  {
    sources + "/_Pending/" + month[..4] + "/" + month + "/" + stem + ".md"
  }

  /** Where a page was filed before there were year folders. */
  function FlatPath(sources: string, month: string, name: string): string {
    sources + "/" + month + "/" + name + ".md"
  }

  predicate NoBracket(s: string) {
    '[' !in s && ']' !in s
  }

  lemma {:induction false} PartsHaveNoBracket(s: string)
    requires NoBracket(s)
    ensures NoBracket(Parent(s)) && NoBracket(Name(s))
  {
    if s != "" {
      assert s[|s| - 1] in s && NoBracket(s[..|s| - 1]);
      PartsHaveNoBracket(s[..|s| - 1]);
    }
  }

  lemma SingleWithoutBrackets(path: string)
    requires NoBracket(path)
    ensures NoteLinks.Single(path)
  {
    var l, inner := NoteLinks.Link(path), NoteLinks.WithoutMd(path);
    assert forall k | 0 <= k < |inner| :: inner[k] in path;
    assert forall k | 2 <= k < |l| - 2 :: l[k] == inner[k - 2];
  }

  /**
   Every place a page is filed at has its link's brackets at the ends only, unless the sources folder
   has brackets.
   */
  lemma PlacesAreSingle(sources: string, filed: string, id: string, month: string)
    requires NoBracket(sources) && NoBracket(filed) && ValidId(id) && IsMonth(month)
    ensures NoteLinks.Single(FiledPath(sources, filed, id, month)) && NoBracket(FiledPath(sources, filed, id, month))
  {
    hide NoteLinks.Single;
    PartsHaveNoBracket(filed);
    PartsHaveNoBracket(Parent(filed));
    MonthHasNoBracket(month);
    MonthHasNoBracket(Name(Parent(filed)));
    assert NoBracket(id) && NoBracket(id + ".md");
    SingleWithoutBrackets(FiledPath(sources, filed, id, month));
  }

  lemma MonthHasNoBracket(month: string)
    ensures IsMonth(month) ==> NoBracket(month) && NoBracket(month[..4]) && '/' !in month
  {
  }

  lemma LinkWithoutMd(path: string)
    ensures NoteLinks.Link(path + ".md") == "[[" + path + "]]"
  {
    var s := path + ".md";
    assert s[|s| - 3..] == ".md" && s[..|s| - 3] == path;
  }

  /** `[[sources/dirs/stem]]`, written so that its parts can be told apart. */
  function LinkOf(sources: string, dirs: string, stem: string): string {
    "[[" + sources + "/" + dirs + stem + "]]"
  }

  function PendingDirs(month: string): string
    requires |month| >= 4
  {
    "_Pending/" + month[..4] + "/" + month + "/"
  }

  lemma PendingLink(sources: string, month: string, stem: string)
    requires IsMonth(month)
    ensures NoteLinks.Link(PendingPath(sources, month, stem)) == LinkOf(sources, PendingDirs(month), stem)
    ensures '[' !in PendingDirs(month) && PendingDirs(month) != "" && PendingDirs(month)[0] == '_'
  {
    LinkWithoutMd(sources + "/_Pending/" + month[..4] + "/" + month + "/" + stem);
  }

  lemma FlatLink(sources: string, month: string, stem: string)
    requires IsMonth(month)
    ensures NoteLinks.Link(FlatPath(sources, month, stem)) == LinkOf(sources, month + "/", stem)
    ensures '[' !in month + "/" && (month + "/")[4] == '-'
  {
    LinkWithoutMd(sources + "/" + month + "/" + stem);
  }

  lemma FiledLink(sources: string, month: string, name: string)
    requires IsMonth(month)
    ensures NoteLinks.Link(Nested(sources, month, name + ".md")) == LinkOf(sources, FiledRest(month, name), "")
  {
    var path := sources + "/" + month[..4] + "/" + month + "/" + name;
    LinkWithoutMd(path);
    assert Nested(sources, month, name + ".md") == path + ".md";
    assert "[[" + path + "]]" == LinkOf(sources, FiledRest(month, name), "");
  }

  function FiledRest(month: string, name: string): (r: string)
    requires IsMonth(month)
    ensures |r| > 4 && r[0] != '_' && r[4] == '/'
  {
    month[..4] + "/" + month + "/" + name
  }

  /**
   A link to a page that was never filed, or filed flat, contains no link to a filed page, whatever
   the former page is called: so replacing leaves none of them.
   */
  lemma FormerLinkHoldsNoFiledOne(sources: string, was: string, stem: string, month: string, name: string)
    requires IsMonth(was) && IsMonth(month) && '/' !in stem
    requires NoteLinks.Single(Nested(sources, month, name + ".md"))
    ensures var to := NoteLinks.Link(Nested(sources, month, name + ".md"));
      && !NoteLinks.Occurs(NoteLinks.Link(PendingPath(sources, was, stem)), to)
      && !NoteLinks.Occurs(NoteLinks.Link(FlatPath(sources, was, stem)), to)
  {
    hide NoteLinks.Single, NoteLinks.Occurs, NoteLinks.Link, Nested, PendingPath, FlatPath, LinkOf, PendingDirs,
      FiledRest;
    var to, inner := Nested(sources, month, name + ".md"), FiledRest(month, name);
    FiledLink(sources, month, name);
    PendingLink(sources, was, stem);
    FlatLink(sources, was, stem);
    NotInside(sources, PendingDirs(was), stem, to, inner, 0);
    NotInside(sources, was + "/", stem, to, inner, 4);
  }

  lemma CharsOf(sources: string, dirs: string, stem: string)
    ensures var l, n := LinkOf(sources, dirs, stem), |sources| + 2;
      && |l| == n + 1 + |dirs| + |stem| + 2 && l[n] == '/' && l[|l| - 2] == ']' && l[|l| - 1] == ']'
      && (forall m | n < m <= n + |dirs| :: l[m] == dirs[m - n - 1])
      && (forall m | n + |dirs| < m < |l| - 2 :: l[m] == stem[m - n - |dirs| - 1])
  {
  }

  lemma SameStart(sources: string, dirs: string, stem: string, inner: string)
    ensures forall k | 0 <= k <= |sources| + 2 :: LinkOf(sources, dirs, stem)[k] == LinkOf(sources, inner, "")[k]
  {
  }

  /** `[[sources/` occurs only at the start of such a link, and there the two go on differently. */
  lemma NotInside(sources: string, dirs: string, stem: string, to: string, inner: string, differ: nat)
    requires '[' !in dirs && '/' !in stem && differ < |dirs| && differ < |inner| && inner[differ] != dirs[differ]
    requires NoteLinks.Single(to) && NoteLinks.Link(to) == LinkOf(sources, inner, "")
    ensures !NoteLinks.Occurs(LinkOf(sources, dirs, stem), NoteLinks.Link(to))
  {
    hide LinkOf, NoteLinks.Single, NoteLinks.Link;
    var l, q, n := LinkOf(sources, dirs, stem), LinkOf(sources, inner, ""), |sources| + 2;
    CharsOf(sources, dirs, stem);
    CharsOf(sources, inner, "");
    assert q[n + 1 + differ] == inner[differ] && l[n + 1 + differ] == dirs[differ];
    forall j: nat ensures !NoteLinks.At(l, j, q) {
      if NoteLinks.At(l, j, q) {
        NoteLinks.Characters(l, j, q);
        NoteLinks.BracketsAt(l, j, to);
        assert l[j + n] == q[n];
        StartsOutside(sources, dirs, stem, to, inner, j);
      }
    }
  }

  lemma StartsOutside(sources: string, dirs: string, stem: string, to: string, inner: string, j: nat)
    requires '[' !in dirs && '/' !in stem
    requires NoteLinks.Single(to) && NoteLinks.Link(to) == LinkOf(sources, inner, "")
    requires var l := LinkOf(sources, dirs, stem);
      && j + |sources| + 2 < |l| && l[j] == '[' && l[j + 1] == '[' && l[j + |sources| + 2] == '/'
    ensures j == 0
  {
    hide LinkOf, NoteLinks.Link;
    CharsOf(sources, dirs, stem);
    CharsOf(sources, inner, "");
    SameStart(sources, dirs, stem, inner);
  }

  /**
   Only a sources folder that is itself named after a filed page defeats the replacement: then some
   body keeps its link to a page that is filed for the first time.
   */
  lemma FolderCanDefeatReplacing(top: string, month: string, id: string, stem: string)
    requires IsMonth(month) && ValidId(id)
    ensures var sources := top + "/" + FiledRest(month, id) + "]][[" + top;
      var from, to := NoteLinks.Link(PendingPath(sources, month, stem)),
        NoteLinks.Link(FiledPath(sources, "", id, month));
      exists body :: NoteLinks.Occurs(NoteLinks.Replace(body, from, to), from)
  {
    hide NoteLinks.Replace, NoteLinks.Link, PendingPath, Nested, FiledRest, PendingDirs, LinkOf;
    var sources, y, w := top + "/" + FiledRest(month, id) + "]][[" + top, LinkOf(top, FiledRest(month, id), ""),
      LinkOf(top, PendingDirs(month), stem);
    PendingLink(sources, month, stem);
    FiledLink(sources, month, id);
    TwoLinks(top, FiledRest(month, id), PendingDirs(month), stem);
    TwoLinks(top, FiledRest(month, id), FiledRest(month, id), "");
    NoteLinks.LinkEnds(PendingPath(sources, month, stem));
    CharsOf(top, FiledRest(month, id), "");
    NoteLinks.FoundFirst(y + w, w, y + y);
    Behind(y, w);
    assert NoteLinks.Occurs(NoteLinks.Replace(y + w + w, y + w, y + y), y + w);
  }

  lemma TwoLinks(top: string, rest: string, dirs: string, stem: string)
    ensures LinkOf(top + "/" + rest + "]][[" + top, dirs, stem) == LinkOf(top, rest, "") + LinkOf(top, dirs, stem)
  {
    var l := LinkOf(top + "/" + rest + "]][[" + top, dirs, stem);
    assert "]][[" == "]]" + "[[";
    assert l == ("[[" + top + "/" + rest + "]]") + ("[[" + top + "/" + dirs + stem + "]]");
  }

  lemma Behind(y: string, w: string)
    ensures NoteLinks.Occurs(y + y + w, y + w)
  {
    assert (y + y + w)[|y|..|y| + |y + w|] == y + w;
    assert NoteLinks.At(y + y + w, |y|, y + w);
  }

  // ----- Pages and manifests -----

  datatype Manifest = Manifest(current: nat, projection: string, filed: string)

  /** A file of the vault: a source page with its frontmatter, or anything else. */
  datatype File = Page(source: string, revision: nat, managed: bool, reviewed: bool, text: string) | Other(text: string)

  predicate PageOf(files: map<string, File>, path: string, id: string) {
    path in files && files[path].Page? && files[path].source == id
  }

  /** The source's page, at its old place or else at its new one, if it shows the revision. */
  function ReadFrom(files: map<string, File>, id: string, revision: nat, from: string, to: string): (page: Option<File>)
    ensures page.Some? ==>
      page.value.Page? && page.value.source == id && page.value.revision == revision && page.value.managed
    ensures page.Some? ==> if from in files then page.value == files[from] else to in files && page.value == files[to]
  {
    var at := if from in files then from else to;
    if at in files && files[at].Page? && files[at].source == id && files[at].revision == revision && files[at].managed
    then Some(files[at]) else None
  }

  /** Devices edit files, but no source page goes away or becomes another source's page. */
  predicate PagesStay(before: map<string, File>, after: map<string, File>) {
    forall p | p in before && before[p].Page? :: PageOf(after, p, before[p].source)
  }
}
