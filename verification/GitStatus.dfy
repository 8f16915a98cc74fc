/** `_parse_git_status` against the text that `git status --porcelain -b` prints. */
module GitStatus {
  import opened Collections
  import opened GitPaths
  import opened Text

  const MIN_GIT_STATUS_LINE_LENGTH := 3

  /** The words the counts are looked up by, each with the blank that follows it. */
  const AHEAD := "[ahead"
  const BEHIND := "behind"

  datatype Change = Change(path: string, status: string)

  datatype Status = Status(branch: string, ahead: int, behind: int,
                           staged: seq<Change>, unstaged: seq<Change>, untracked: seq<string>)
  {
    predicate IsClean() {
      staged == [] && unstaged == [] && untracked == []
    }
  }

  const NOTHING_SEEN := Status("main", 0, 0, [], [], [])

  // ----- The parser -----

  function StatusName(c: char): string {
    match c
    case 'M' => "modified"
    case 'A' => "added"
    case 'D' => "deleted"
    case 'R' => "renamed"
    case 'C' => "copied"
    case 'U' => "unmerged"
    case _ => "unknown"
  }

  /** `s.split()[0]`; nothing where it raises IndexError. */
  function FirstWord(s: string): Option<string> {
    if s == "" then None
    else if IsSpace(s[0]) then FirstWord(s[1..])
    else Some(UpToSpace(s))
  }

  function UpToSpace(s: string): string {
    if s == "" || IsSpace(s[0]) then "" else [s[0]] + UpToSpace(s[1..])
  }

  function BranchIn(info: string): Option<string> {
    if Contains(info, "...") then Some(Split(info, "...")[0])
    else if info != "" then FirstWord(info)
    else Some("main")
  }

  /** What `int` gets to see of the text after the first `mark`. */
  function CountAfter(info: string, mark: string): string
    requires mark != "" && Contains(info, mark)
  {
    Split(Split(info, mark)[1], "]")[0]
  }

  function AheadIn(info: string): Option<int> {
    if Contains(info, AHEAD + " ") then PyInt(Split(CountAfter(info, AHEAD + " "), ",")[0]) else None
  }

  function BehindIn(info: string): Option<int> {
    if Contains(info, BEHIND + " ") then PyInt(CountAfter(info, BEHIND + " ")) else None
  }

  function OrElse(count: Option<int>, otherwise: int): int {
    if count.Some? then count.value else otherwise
  }

  /** The accumulated answer after one more line; nothing where an exception escapes. */
  function AfterLine(status: Status, line: string): Option<Status> {
    if "## " <= line then
      var info := line[3..];
      match BranchIn(info)
      case None => None
      case Some(branch) =>
        Some(status.(branch := branch,
                     ahead := OrElse(AheadIn(info), status.ahead),
                     behind := OrElse(BehindIn(info), status.behind)))
    else if |line| >= MIN_GIT_STATUS_LINE_LENGTH then
      var path := line[3..];
      if line[0] == '?' then
        Some(status.(untracked := status.untracked + [path]))
      else
        Some(status.(staged := status.staged + ChangeOf(line[0], path),
                     unstaged := status.unstaged + ChangeOf(line[1], path)))
    else
      Some(status)
  }

  function ChangeOf(code: char, path: string): seq<Change> {
    if code == ' ' then [] else [Change(path, StatusName(code))]
  }

  function AfterLines(status: Status, lines: seq<string>): Option<Status>
    decreases lines
  {
    if lines == [] then Some(status)
    else
      match AfterLine(status, lines[0])
      case None => None
      case Some(next) => AfterLines(next, lines[1..])
  }

  function LinesOf(output: string): seq<string> {
    if Strip(output) == "" then [] else Split(Strip(output), "\n")
  }

  function Parsed(output: string): Option<Status> {
    AfterLines(NOTHING_SEEN, LinesOf(output))
  }

  /** The loop of `_parse_git_status`; `raised` where an IndexError escapes. */
  method ParseGitStatus(output: string) returns (status: Status, isClean: bool, raised: bool)
    ensures raised <==> Parsed(output) == None
    ensures !raised ==> Parsed(output) == Some(status) && isClean == status.IsClean()
  {
    var lines := LinesOf(output);
    var branch, ahead, behind := "main", 0, 0;
    var staged: seq<Change>, unstaged: seq<Change>, untracked: seq<string> := [], [], [];
    status, isClean, raised := NOTHING_SEEN, true, false;
    for i := 0 to |lines|
      invariant Parsed(output) ==
                AfterLines(Status(branch, ahead, behind, staged, unstaged, untracked), lines[i..])
    {
      var line := lines[i];
      ghost var before := Status(branch, ahead, behind, staged, unstaged, untracked);
      assert staged + [] == staged && unstaged + [] == unstaged;
      if "## " <= line {
        var info := line[3..];
        if Contains(info, "...") {
          branch := Split(info, "...")[0];
        } else if info != "" {
          match FirstWord(info) {
            case None => return status, isClean, true;
            case Some(word) => branch := word;
          }
        } else {
          branch := "main";
        }
        if Contains(info, AHEAD + " ") {
          ahead := OrElse(PyInt(Split(CountAfter(info, AHEAD + " "), ",")[0]), ahead);
        }
        if Contains(info, BEHIND + " ") {
          behind := OrElse(PyInt(CountAfter(info, BEHIND + " ")), behind);
        }
      } else if |line| >= MIN_GIT_STATUS_LINE_LENGTH {
        var indexStatus, worktreeStatus, filepath := line[0], line[1], line[3..];
        if indexStatus == '?' {
          untracked := untracked + [filepath];
        } else {
          if indexStatus != ' ' {
            staged := staged + [Change(filepath, StatusName(indexStatus))];
          }
          if worktreeStatus != ' ' {
            unstaged := unstaged + [Change(filepath, StatusName(worktreeStatus))];
          }
        }
      }
      assert AfterLine(before, line) == Some(Status(branch, ahead, behind, staged, unstaged, untracked));
      assert lines[i..][1..] == lines[i + 1..];
    }
    status := Status(branch, ahead, behind, staged, unstaged, untracked);
    isClean := |staged| == 0 && |unstaged| == 0 && |untracked| == 0;
  }

  // ----- Lines that git does not print after a heading -----

  /** Output without a line: a clean `main`. */
  lemma NoOutput(output: string)
    requires Strip(output) == ""
    ensures Parsed(output) == Some(Status("main", 0, 0, [], [], []))
  {
  }

  /** Lines of fewer than three characters are skipped, those of three are not; a heading without text stands for
      `main`, one of blanks alone raises. */
  lemma OddLines(status: Status, line: string)
    ensures |line| < 3 ==> AfterLine(status, line) == Some(status)
    ensures line == "?? " ==> AfterLine(status, line) == Some(status.(untracked := status.untracked + [""]))
    ensures line == "## " ==> AfterLine(status, line) == Some(status.(branch := "main"))
    ensures line == "##  " ==> AfterLine(status, line) == None
  {
    if line == "## " {
      assert line[3..] == "";
      assert AHEAD[0] == '[' && BEHIND[0] == 'b';
    } else if line == "##  " {
      assert line[3..] == " ";
      assert "..."[0] == '.';
      MissingCharMeansNone(" ", "...", '.');
      assert " "[1..] == "";
    }
  }

  // ----- What git prints -----

  datatype Divergence = Gone | Counts(ahead: nat, behind: nat)

  datatype Upstream = NoUpstream | Upstream(name: string, divergence: Divergence)

  /** What has happened to a file, in the index or in the working tree. */
  datatype Kind = Unmodified | Modified | TypeChanged | Added | Deleted | Renamed | Copied | Unmerged

  /** Git's letter for it. */
  function Letter(kind: Kind): char {
    match kind
    case Unmodified => ' '
    case Modified => 'M'
    case TypeChanged => 'T'
    case Added => 'A'
    case Deleted => 'D'
    case Renamed => 'R'
    case Copied => 'C'
    case Unmerged => 'U'
  }

  /** `source` is the path a rename or a copy comes from. */
  datatype Entry =
    | Changed(index: Kind, worktree: Kind, path: string, source: Option<string>)
    | Untracked(path: string)

  /** What is checked out: a branch with commits, a branch without any yet, or no branch. */
  datatype Head = OnBranch(name: string) | Unborn(name: string) | Detached

  datatype Repository = Repository(head: Head, upstream: Upstream, entries: seq<Entry>)

  function Heading(repo: Repository): string {
    match repo.head
    case OnBranch(name) => Tracking(name, repo.upstream)
    case Unborn(name) => Noticed(Tracking(name, repo.upstream))
    case Detached => "HEAD" + " " + "(no branch)"
  }

  function Tracking(name: string, upstream: Upstream): string {
    name +
    match upstream
    case NoUpstream => ""
    case Upstream(remote, divergence) => "..." + remote + Bracket(divergence)
  }

  /** The text after "No commits yet on". */
  function Noticed(text: string): string {
    "No" + " " + ("commits" + " " + ("yet" + " " + ("on" + " " + text)))
  }

  function Bracket(d: Divergence): string {
    if d.Counts? && d.ahead == 0 && d.behind == 0 then "" else " " + Inside(d)
  }

  /** `[gone]`, `[ahead A]`, `[behind B]` or `[ahead A, behind B]`, cut at the blanks. */
  function Inside(d: Divergence): string {
    match d
    case Gone => "[gone]"
    case Counts(ahead, behind) =>
      if behind == 0 then AHEAD + " " + (Show(ahead) + "]")
      else if ahead == 0 then "[behind" + " " + (Show(behind) + "]")
      else AHEAD + " " + ((Show(ahead) + ",") + " " + (BEHIND + " " + (Show(behind) + "]")))
  }

  /** The brackets, spelled out. */
  lemma BracketsAreSpelled(ahead: nat, behind: nat)
    requires ahead > 0 && behind > 0
    ensures Inside(Counts(ahead, 0)) == "[ahead " + Show(ahead) + "]"
    ensures Inside(Counts(0, behind)) == "[behind " + Show(behind) + "]"
    ensures Inside(Counts(ahead, behind)) == "[ahead " + Show(ahead) + ", behind " + Show(behind) + "]"
  {
    WordThenText("[ahead", "[ahead ", Show(ahead) + "]");
    WordThenText("[behind", "[behind ", Show(behind) + "]");
    WordThenText("[ahead", "[ahead ", (Show(ahead) + ",") + " " + ("behind" + " " + (Show(behind) + "]")));
    TwoCounts("[ahead ", Show(ahead), Show(behind) + "]");
  }

  lemma WordThenText(word: string, blanked: string, text: string)
    requires word + " " == blanked
    ensures word + " " + text == blanked + text
  {
  }

  lemma TwoCounts(start: string, ahead: string, rest: string)
    ensures start + ((ahead + ",") + " " + ("behind" + " " + rest)) == start + ahead + ", behind " + rest
  {
    assert "," + " " + ("behind" + " ") == ", behind ";
    assert (ahead + ",") + " " + ("behind" + " " + rest) == ahead + ("," + " " + ("behind" + " ")) + rest;
  }

  lemma NoticeIsSpelled(text: string)
    ensures Noticed(text) == "No commits yet on " + text
  {
    var on, yet := "on" + " " + text, "yet" + " " + ("on" + " " + text);
    assert "yet" + " " + ("on" + " ") == "yet on ";
    assert yet == "yet on " + text;
    assert "No" + " " + ("commits" + " ") == "No commits ";
    assert Noticed(text) == "No commits " + yet;
    assert "No commits " + "yet on " == "No commits yet on ";
  }

  /** What stands for the path: quoted where it needs to be, and behind the path it comes from. */
  function Shown(entry: Entry): string
    requires IsEntry(entry)
  {
    match entry
    case Changed(_, _, path, source) => (if source.Some? then Quoted(source.value) + " -> " else "") + Quoted(path)
    case Untracked(path) => Quoted(path)
  }

  function EntryLine(entry: Entry): string
    requires IsEntry(entry)
  {
    match entry
    case Changed(index, worktree, _, _) => [Letter(index), Letter(worktree), ' '] + Shown(entry)
    case Untracked(_) => "?? " + Shown(entry)
  }

  function EntryLines(entries: seq<Entry>): (lines: seq<string>)
    requires AllEntries(entries)
    ensures |lines| == |entries|
  {
    if entries == [] then [] else [EntryLine(entries[0])] + EntryLines(entries[1..])
  }

  function PrintedLines(repo: Repository): seq<string>
    requires AllEntries(repo.entries)
  {
    ["## " + Heading(repo)] + EntryLines(repo.entries)
  }

  function Printed(repo: Repository): string
    requires AllEntries(repo.entries)
  {
    Join(PrintedLines(repo), "\n") + "\n"
  }

  predicate NoDoubleDot(s: string) {
    forall i :: 0 <= i < |s| - 1 ==> s[i] != '.' || s[i + 1] != '.'
  }

  /** The part of git's rules for reference names (git-check-ref-format) that the parser needs:
      no blanks, no "..", no "[", no dot at the end. */
  predicate IsRefName(s: string) {
    && s != "" && s[|s| - 1] != '.'
    && (forall i :: 0 <= i < |s| ==> !IsSpace(s[i]) && s[i] != '[')
    && NoDoubleDot(s)
  }

  predicate IsMove(kind: Kind) {
    kind == Renamed || kind == Copied
  }

  predicate IsEntry(entry: Entry) {
    && IsPath(entry.path)
    && (entry.Changed? ==>
          && (entry.index != Unmodified || entry.worktree != Unmodified)
          && (entry.source.Some? <==> IsMove(entry.index) || IsMove(entry.worktree))
          && (entry.source.Some? ==> IsPath(entry.source.value)))
  }

  predicate AllEntries(entries: seq<Entry>) {
    forall e :: e in entries ==> IsEntry(e)
  }

  predicate IsPrintable(repo: Repository) {
    && (!repo.head.Detached? ==> IsRefName(repo.head.name))
    && (repo.upstream.Upstream? ==> IsRefName(repo.upstream.name))
    && (repo.head.Detached? ==> repo.upstream.NoUpstream?)
    && (repo.head.Unborn? && repo.upstream.Upstream? ==> repo.upstream.divergence.Gone?)
    && AllEntries(repo.entries)
  }

  // ----- What the answer should be -----

  /** The name under which a change is to be reported. */
  function NameFor(kind: Kind): string
    requires kind != Unmodified
  {
    if kind == Modified then "modified"
    else if kind == Added then "added"
    else if kind == Deleted then "deleted"
    else if kind == Renamed then "renamed"
    else if kind == Copied then "copied"
    else if kind == Unmerged then "unmerged"
    else "unknown"
  }

  function StagedIn(entry: Entry): seq<Change> {
    if entry.Changed? && entry.index != Unmodified then [Change(entry.path, NameFor(entry.index))] else []
  }

  function UnstagedIn(entry: Entry): seq<Change> {
    if entry.Changed? && entry.worktree != Unmodified then [Change(entry.path, NameFor(entry.worktree))] else []
  }

  function UntrackedIn(entry: Entry): seq<string> {
    if entry.Untracked? then [entry.path] else []
  }

  function StagedOf(entries: seq<Entry>): seq<Change> {
    if entries == [] then [] else StagedIn(entries[0]) + StagedOf(entries[1..])
  }

  function UnstagedOf(entries: seq<Entry>): seq<Change> {
    if entries == [] then [] else UnstagedIn(entries[0]) + UnstagedOf(entries[1..])
  }

  function UntrackedOf(entries: seq<Entry>): seq<string> {
    if entries == [] then [] else UntrackedIn(entries[0]) + UntrackedOf(entries[1..])
  }

  function AheadOf(d: Divergence): nat {
    if d.Counts? then d.ahead else 0
  }

  function BehindOf(d: Divergence): nat {
    if d.Counts? then d.behind else 0
  }

  function Ahead(repo: Repository): nat {
    if repo.upstream.Upstream? then AheadOf(repo.upstream.divergence) else 0
  }

  function Behind(repo: Repository): nat {
    if repo.upstream.Upstream? then BehindOf(repo.upstream.divergence) else 0
  }

  /** What the parser takes for the branch. */
  function BranchRead(repo: Repository): string {
    match repo.head
    case OnBranch(name) => name
    case Unborn(name) => if repo.upstream.NoUpstream? then "No" else Noticed(name)
    case Detached => "HEAD"
  }

  /** The entry with what is shown of its path in the path's place. */
  function AsShown(entry: Entry): Entry
    requires IsEntry(entry)
  {
    entry.(path := Shown(entry))
  }

  function AllShown(entries: seq<Entry>): seq<Entry>
    requires AllEntries(entries)
  {
    if entries == [] then [] else [AsShown(entries[0])] + AllShown(entries[1..])
  }

  /** The whole answer, given what is read for the behind count. */
  function Answer(repo: Repository, behind: int): Status
    requires AllEntries(repo.entries)
  {
    var shown := AllShown(repo.entries);
    Status(BranchRead(repo), Ahead(repo), behind, StagedOf(shown), UnstagedOf(shown), UntrackedOf(shown))
  }

  predicate UpstreamEndsInBehind(repo: Repository) {
    repo.upstream.Upstream? && EndsWith(repo.upstream.name, BEHIND)
  }

  // ----- The entries -----

  lemma {:induction false} EntriesReadBack(status: Status, entries: seq<Entry>)
    requires AllEntries(entries)
    ensures var shown := AllShown(entries);
            AfterLines(status, EntryLines(entries)) ==
            Some(Extended(status, StagedOf(shown), UnstagedOf(shown), UntrackedOf(shown)))
    decreases entries
  {
    if entries == [] {
      NothingAdded(status);
    } else {
      var first, rest := AsShown(entries[0]), AllShown(entries[1..]);
      EntryReadsBack(status, entries[0]);
      var next := Extended(status, StagedIn(first), UnstagedIn(first), UntrackedIn(first));
      EntriesReadBack(next, entries[1..]);
      assert AllShown(entries)[1..] == rest;
      Regroup(status.staged, StagedIn(first), StagedOf(rest));
      Regroup(status.unstaged, UnstagedIn(first), UnstagedOf(rest));
      Regroup(status.untracked, UntrackedIn(first), UntrackedOf(rest));
    }
  }

  function Extended(status: Status, staged: seq<Change>, unstaged: seq<Change>, untracked: seq<string>): Status {
    status.(staged := status.staged + staged,
            unstaged := status.unstaged + unstaged,
            untracked := status.untracked + untracked)
  }

  lemma NothingAdded(status: Status)
    ensures Extended(status, [], [], []) == status
  {
    assert status.staged + [] == status.staged;
    assert status.unstaged + [] == status.unstaged;
    assert status.untracked + [] == status.untracked;
  }

  lemma LetterIsMeant(kind: Kind)
    ensures Letter(kind) != '?' && (Letter(kind) == ' ' <==> kind == Unmodified)
    ensures kind != Unmodified ==> StatusName(Letter(kind)) == NameFor(kind)
  {
  }

  lemma EntryReadsBack(status: Status, entry: Entry)
    requires IsEntry(entry)
    ensures var shown := AsShown(entry);
            AfterLine(status, EntryLine(entry)) ==
            Some(Extended(status, StagedIn(shown), UnstagedIn(shown), UntrackedIn(shown)))
  {
    var line := EntryLine(entry);
    if entry.Changed? {
      LetterIsMeant(entry.index);
      LetterIsMeant(entry.worktree);
    }
    assert line[3..] == Shown(entry);
    assert line[0] != '#';
    assert status.staged + [] == status.staged;
    assert status.unstaged + [] == status.unstaged;
    assert status.untracked + [] == status.untracked;
  }

  /** The parser's table reads git's letters as they are meant: each of the six names stands for its own kind of change
      and no other, and "unknown" for a change of type. */
  lemma NamesAreMeant(kind: Kind)
    requires kind != Unmodified
    ensures StatusName(Letter(kind)) == "modified" <==> kind == Modified
    ensures StatusName(Letter(kind)) == "added" <==> kind == Added
    ensures StatusName(Letter(kind)) == "deleted" <==> kind == Deleted
    ensures StatusName(Letter(kind)) == "renamed" <==> kind == Renamed
    ensures StatusName(Letter(kind)) == "copied" <==> kind == Copied
    ensures StatusName(Letter(kind)) == "unmerged" <==> kind == Unmerged
    ensures StatusName(Letter(kind)) == "unknown" <==> kind == TypeChanged
    ensures StatusName(Letter(kind)) == NameFor(kind) && Letter(kind) != ' ' && Letter(kind) != '?'
    ensures StatusName('M') == "modified" && StatusName('A') == "added" && StatusName('D') == "deleted"
    ensures StatusName('R') == "renamed" && StatusName('C') == "copied" && StatusName('U') == "unmerged"
  {
    assert "modified"[0] != "added"[0] && "added"[0] != "deleted"[0] && "copied"[0] != "deleted"[0];
    assert "unmerged"[2] == 'm' && "unknown"[2] == 'k' && "renamed"[0] == 'r';
  }

  // ----- When the paths are the paths -----

  /** Neither quoted nor behind another path. */
  predicate IsPlain(entry: Entry) {
    !NeedsQuotes(entry.path) && (entry.Changed? ==> entry.source.None?)
  }

  lemma ShownExactly(entry: Entry)
    requires IsEntry(entry)
    ensures Shown(entry) == entry.path <==> IsPlain(entry)
  {
    ShownAsItIs(entry.path);
    if entry.Changed? {
      if entry.source.Some? {
        assert |Shown(entry)| >= |Quoted(entry.path)| + 4;
      } else {
        assert "" + Quoted(entry.path) == Quoted(entry.path);
      }
    }
  }

  lemma SameParts<T>(a: seq<T>, b: seq<T>, c: seq<T>, d: seq<T>)
    requires |a| == |b|
    ensures a + c == b + d <==> a == b && c == d
  {
    if a + c == b + d {
      assert a == (a + c)[..|a|] && b == (b + d)[..|b|];
      assert c == (a + c)[|a|..] && d == (b + d)[|b|..];
    }
  }

  /** All three lists are as if every path were shown as it is. */
  predicate ListsAreTrue(shown: seq<Entry>, entries: seq<Entry>) {
    && StagedOf(shown) == StagedOf(entries)
    && UnstagedOf(shown) == UnstagedOf(entries)
    && UntrackedOf(shown) == UntrackedOf(entries)
  }

  lemma OneEntryIsTrue(entry: Entry)
    requires IsEntry(entry)
    ensures var shown := AsShown(entry);
            (StagedIn(shown) == StagedIn(entry) && UnstagedIn(shown) == UnstagedIn(entry)
             && UntrackedIn(shown) == UntrackedIn(entry)) <==> IsPlain(entry)
  {
    ShownExactly(entry);
    var shown := AsShown(entry);
    if shown.path != entry.path {
      if entry.Untracked? {
        assert UntrackedIn(shown)[0] != UntrackedIn(entry)[0];
      } else if entry.index != Unmodified {
        assert StagedIn(shown)[0] != StagedIn(entry)[0];
      } else {
        assert UnstagedIn(shown)[0] != UnstagedIn(entry)[0];
      }
    }
  }

  lemma FirstListsAreTrue(entry: Entry, shown: Entry, rest: seq<Entry>, others: seq<Entry>)
    requires IsEntry(entry) && shown == AsShown(entry)
    ensures && StagedIn(shown) + StagedOf(others) == StagedIn(entry) + StagedOf(rest)
            && UnstagedIn(shown) + UnstagedOf(others) == UnstagedIn(entry) + UnstagedOf(rest)
            && UntrackedIn(shown) + UntrackedOf(others) == UntrackedIn(entry) + UntrackedOf(rest)
            <==> IsPlain(entry) && ListsAreTrue(others, rest)
  {
    OneEntryIsTrue(entry);
    SameParts(StagedIn(shown), StagedIn(entry), StagedOf(others), StagedOf(rest));
    SameParts(UnstagedIn(shown), UnstagedIn(entry), UnstagedOf(others), UnstagedOf(rest));
    SameParts(UntrackedIn(shown), UntrackedIn(entry), UntrackedOf(others), UntrackedOf(rest));
  }

  lemma PlainFirstAndRest(entries: seq<Entry>)
    requires entries != [] && AllEntries(entries)
    ensures (forall e :: e in entries ==> IsPlain(e)) <==>
            IsPlain(entries[0]) && forall e :: e in entries[1..] ==> IsPlain(e)
  {
    assert entries == [entries[0]] + entries[1..];
  }

  /** The lists hold the changed and untracked paths themselves if and only if no path needs quotes and nothing was
      renamed or copied. */
  lemma {:induction false} PathsReadBackExactly(entries: seq<Entry>)
    requires AllEntries(entries)
    ensures ListsAreTrue(AllShown(entries), entries) <==> forall e :: e in entries ==> IsPlain(e)
    decreases entries
  {
    if entries != [] {
      var entry, rest := entries[0], entries[1..];
      var shown, others := AsShown(entry), AllShown(entries[1..]);
      PathsReadBackExactly(rest);
      PlainFirstAndRest(entries);
      FirstListsAreTrue(entry, shown, rest, others);
      assert AllShown(entries)[1..] == others;
    }
  }

  // ----- Lines -----

  lemma {:induction false} JoinEndsInLast(lines: seq<string>)
    requires lines != [] && lines[|lines| - 1] != ""
    ensures Join(lines, "\n") != ""
    ensures var text, last := Join(lines, "\n"), lines[|lines| - 1];
            text[|text| - 1] == last[|last| - 1]
  {
    if |lines| > 1 {
      JoinEndsInLast(lines[1..]);
    }
  }

  lemma {:induction false} EntryLinesAt(entries: seq<Entry>, i: nat)
    requires AllEntries(entries) && i < |entries|
    ensures EntryLines(entries)[i] == EntryLine(entries[i])
  {
    if i > 0 {
      EntryLinesAt(entries[1..], i - 1);
    }
  }

  lemma NoLineBreaks(repo: Repository)
    requires IsPrintable(repo)
    ensures forall line :: line in PrintedLines(repo) ==> '\n' !in line
  {
    HeadingIsOneLine(repo);
    assert '\n' !in "## ";
    forall i | 0 <= i < |repo.entries| ensures '\n' !in EntryLines(repo.entries)[i] {
      EntryLinesAt(repo.entries, i);
      EntryIsOneLine(repo.entries[i]);
    }
  }

  /** One line that does not end in a blank. */
  predicate IsOneLine(s: string) {
    '\n' !in s && s != "" && !IsSpace(s[|s| - 1])
  }

  lemma PutBefore(head: string, text: string)
    requires '\n' !in head && IsOneLine(text)
    ensures IsOneLine(head + text)
  {
  }

  lemma QuotedIsOneLine(path: string)
    requires IsPath(path)
    ensures IsOneLine(Quoted(path))
  {
    QuotedIsPrintable(path);
    PrintableIsOneLine(Quoted(path));
  }

  lemma PrintableIsOneLine(s: string)
    requires s != "" && s[|s| - 1] != ' ' && forall i :: 0 <= i < |s| ==> 32 <= s[i] as int < 127
    ensures IsOneLine(s)
  {
  }

  /** What is shown is one line and does not end in a blank, whatever the paths hold. */
  lemma ShownIsOneLine(entry: Entry)
    requires IsEntry(entry)
    ensures IsOneLine(Shown(entry))
  {
    QuotedIsOneLine(entry.path);
    if entry.Changed? && entry.source.Some? {
      QuotedIsOneLine(entry.source.value);
      assert '\n' !in " -> ";
      PutBefore(Quoted(entry.source.value) + " -> ", Quoted(entry.path));
    } else {
      assert "" + Quoted(entry.path) == Quoted(entry.path);
    }
  }

  lemma EntryIsOneLine(entry: Entry)
    requires IsEntry(entry)
    ensures IsOneLine(EntryLine(entry))
  {
    ShownIsOneLine(entry);
    match entry
    case Changed(index, worktree, _, _) =>
      assert Letter(index) != '\n' && Letter(worktree) != '\n';
      PutBefore([Letter(index), Letter(worktree), ' '], Shown(entry));
    case Untracked(_) =>
      assert '\n' !in "?? ";
      PutBefore("?? ", Shown(entry));
  }

  lemma NumberIsOneLine(n: nat)
    ensures '\n' !in Show(n) + "]" && '\n' !in Show(n) + ","
  {
  }

  lemma InsideIsOneLine(d: Divergence)
    ensures '\n' !in Inside(d)
  {
    if d.Counts? {
      NumberIsOneLine(d.ahead);
      NumberIsOneLine(d.behind);
    }
  }

  lemma InsideEndsInBracket(d: Divergence)
    ensures Inside(d) != "" && Inside(d)[|Inside(d)| - 1] == ']'
  {
  }

  lemma BracketIsOneLine(divergence: Divergence)
    ensures '\n' !in Bracket(divergence)
    ensures Bracket(divergence) != "" ==> Bracket(divergence)[|Bracket(divergence)| - 1] == ']'
  {
    InsideIsOneLine(divergence);
    InsideEndsInBracket(divergence);
  }

  lemma RefNamesAreOneLine(name: string)
    requires IsRefName(name)
    ensures '\n' !in name
  {
  }

  lemma TrackingIsOneLine(name: string, upstream: Upstream)
    requires IsRefName(name) && (upstream.Upstream? ==> IsRefName(upstream.name))
    ensures var text := Tracking(name, upstream); '\n' !in text && text != "" && !IsSpace(text[|text| - 1])
  {
    RefNamesAreOneLine(name);
    if upstream.Upstream? {
      RefNamesAreOneLine(upstream.name);
      BracketIsOneLine(upstream.divergence);
    }
  }

  lemma NoticeIsOneLine(text: string)
    requires '\n' !in text && text != "" && !IsSpace(text[|text| - 1])
    ensures '\n' !in Noticed(text) && Noticed(text) != "" && !IsSpace(Noticed(text)[|Noticed(text)| - 1])
  {
    NoticeIsPrefix(text);
    assert Noticed(text)[|Noticed(text)| - 1] == text[|text| - 1];
  }

  lemma NoticeIsPrefix(text: string)
    ensures Noticed(text) == "No commits yet on " + text
  {
  }

  lemma HeadingIsOneLine(repo: Repository)
    requires IsPrintable(repo)
    ensures '\n' !in Heading(repo)
    ensures Heading(repo) != "" && !IsSpace(Heading(repo)[|Heading(repo)| - 1])
  {
    if !repo.head.Detached? {
      TrackingIsOneLine(repo.head.name, repo.upstream);
      NoticeIsOneLine(Tracking(repo.head.name, repo.upstream));
    }
  }

  lemma LinesReadBack(repo: Repository)
    requires IsPrintable(repo)
    ensures LinesOf(Printed(repo)) == PrintedLines(repo)
  {
    var lines := PrintedLines(repo);
    LastLineIsSolid(repo);
    OutputStartsWithMark(repo);
    JoinEndsInLast(lines);
    BreakIsStripped(Join(lines, "\n"));
    NoLineBreaks(repo);
    SplitJoined(lines, '\n');
  }

  /** Not empty, and no blank at its end. */
  predicate IsSolid(s: string) {
    s != "" && !IsSpace(s[|s| - 1])
  }

  lemma LastLineIsSolid(repo: Repository)
    requires IsPrintable(repo)
    ensures var lines := PrintedLines(repo); IsSolid(lines[|lines| - 1])
  {
    if repo.entries == [] {
      HeadingIsOneLine(repo);
    } else {
      EntryLinesAt(repo.entries, |repo.entries| - 1);
      EntryIsOneLine(repo.entries[|repo.entries| - 1]);
    }
  }

  lemma OutputStartsWithMark(repo: Repository)
    requires IsPrintable(repo)
    ensures Join(PrintedLines(repo), "\n") != "" && Join(PrintedLines(repo), "\n")[0] == '#'
  {
    assert PrintedLines(repo)[0] == "## " + Heading(repo);
  }

  lemma BreakIsStripped(text: string)
    requires text != "" && !IsSpace(text[0]) && !IsSpace(text[|text| - 1])
    ensures Strip(text + "\n") == text
  {
    StripRightStops(text, "\n");
  }

  // ----- The heading -----

  lemma RestHasNoDoubleDot(s: string)
    requires s != "" && NoDoubleDot(s)
    ensures NoDoubleDot(s[1..])
  {
    forall i | 0 <= i < |s[1..]| - 1 ensures s[1..][i] != '.' || s[1..][i + 1] != '.' {
      assert s[i + 1] != '.' || s[i + 2] != '.';
    }
  }

  lemma {:induction false} DotsAreFoundAfter(branch: string, rest: string)
    requires branch == "" || branch[|branch| - 1] != '.'
    requires NoDoubleDot(branch)
    ensures Find(branch + "..." + rest, "...") == Some(|branch|)
  {
    var s := branch + "..." + rest;
    if branch == "" {
      assert s[..3] == "...";
    } else {
      var after := branch[1..];
      RestHasNoDoubleDot(branch);
      DotsAreFoundAfter(after, rest);
      assert s[1..] == after + "..." + rest;
      assert s[0] == branch[0] && (|branch| > 1 ==> s[1] == branch[1]);
    }
  }

  lemma {:induction false} NoDotsFound(branch: string)
    requires NoDoubleDot(branch)
    ensures Find(branch, "...") == None
  {
    if branch != "" {
      var after := branch[1..];
      RestHasNoDoubleDot(branch);
      NoDotsFound(after);
      assert |branch| >= 2 ==> branch[0] != '.' || branch[1] != '.';
    }
  }

  lemma {:induction false} OneWord(s: string)
    requires forall i :: 0 <= i < |s| ==> !IsSpace(s[i])
    ensures UpToSpace(s) == s
  {
    if s != "" {
      OneWord(s[1..]);
    }
  }

  lemma FirstOfWords(word: string, rest: string)
    requires word != "" && forall i :: 0 <= i < |word| ==> !IsSpace(word[i])
    ensures FirstWord(word + " " + rest) == Some(word)
  {
    assert (word + " " + rest)[0] == word[0];
    UpToBlank(word, rest);
  }

  lemma {:induction false} UpToBlank(word: string, rest: string)
    requires forall i :: 0 <= i < |word| ==> !IsSpace(word[i])
    ensures UpToSpace(word + " " + rest) == word
  {
    if word != "" {
      UpToBlank(word[1..], rest);
      assert (word + " " + rest)[1..] == word[1..] + " " + rest;
      assert word == [word[0]] + word[1..];
    }
  }

  lemma NoticeHasNoDots(text: string)
    requires NoDoubleDot(text)
    ensures NoDoubleDot(Noticed(text))
    ensures text != "" ==> Noticed(text)[|Noticed(text)| - 1] == text[|text| - 1]
  {
    NoticeIsPrefix(text);
    var lead := "No commits yet on ";
    assert forall i :: 0 <= i < |lead| ==> lead[i] != '.';
    forall i | 0 <= i < |Noticed(text)| - 1 && i >= |lead|
      ensures Noticed(text)[i] != '.' || Noticed(text)[i + 1] != '.'
    {
      assert Noticed(text)[i] == text[i - |lead|] && Noticed(text)[i + 1] == text[i - |lead| + 1];
    }
  }

  lemma NoticeGoesAhead(text: string, rest: string)
    ensures Noticed(text + rest) == Noticed(text) + rest
  {
  }

  /** Before an upstream, everything up to the dots is taken for the branch. */
  lemma BranchBeforeDots(shown: string, upstream: Upstream)
    requires upstream.Upstream? && NoDoubleDot(shown) && (shown == "" || shown[|shown| - 1] != '.')
    ensures BranchIn(Tracking(shown, upstream)) == Some(shown)
  {
    var rest := upstream.name + Bracket(upstream.divergence);
    TrackingIs(shown, upstream);
    DotsAreFoundAfter(shown, rest);
    SplitOnce(shown, rest, "...");
  }

  lemma TrackedBranch(name: string, upstream: Upstream)
    requires IsRefName(name)
    ensures BranchIn(Tracking(name, upstream)) == Some(name)
  {
    if upstream.NoUpstream? {
      assert Tracking(name, upstream) == name;
      NoDotsFound(name);
      OneWord(name);
    } else {
      BranchBeforeDots(name, upstream);
    }
  }

  lemma UnbornBranch(name: string, upstream: Upstream)
    requires IsRefName(name)
    ensures BranchIn(Noticed(Tracking(name, upstream))) == Some(if upstream.NoUpstream? then "No" else Noticed(name))
  {
    NoticeHasNoDots(name);
    if upstream.NoUpstream? {
      assert Tracking(name, upstream) == name;
      NoDotsFound(Noticed(name));
      FirstOfWords("No", "commits" + " " + ("yet" + " " + ("on" + " " + name)));
    } else {
      TrackingIs(name, upstream);
      TrackingIs(Noticed(name), upstream);
      NoticeGoesAhead(name, "..." + (upstream.name + Bracket(upstream.divergence)));
      BranchBeforeDots(Noticed(name), upstream);
    }
  }

  lemma BranchReadsBack(repo: Repository)
    requires IsPrintable(repo)
    ensures BranchIn(Heading(repo)) == Some(BranchRead(repo))
    ensures !repo.head.Detached? ==>
      (BranchRead(repo) == repo.head.name <==>
       repo.head.OnBranch? || (repo.upstream.NoUpstream? && repo.head.name == "No"))
  {
    match repo.head
    case OnBranch(name) => TrackedBranch(name, repo.upstream);
    case Unborn(name) =>
      UnbornBranch(name, repo.upstream);
      NoticeIsPrefix(name);
      assert |Noticed(name)| != |name|;
    case Detached =>
      MissingCharMeansNone(Heading(repo), "...", '.');
      FirstOfWords("HEAD", "(no branch)");
  }

  lemma TrackingIs(shown: string, upstream: Upstream)
    requires upstream.Upstream?
    ensures var remote, bracket := upstream.name, Bracket(upstream.divergence);
            && Tracking(shown, upstream) == shown + "..." + (remote + bracket) == Names(shown, remote) + bracket
            && Tracking(shown, upstream) == shown + ("..." + (remote + bracket))
  {
    Grouped(shown, "...", upstream.name, Bracket(upstream.divergence));
  }

  lemma Grouped(a: string, b: string, c: string, d: string)
    ensures a + (b + c + d) == a + b + (c + d) == (a + b + c) + d
    ensures a + (b + c + d) == a + (b + (c + d))
  {
  }

  /** The heading up to the bracket: it holds neither a blank nor a bracket, and ends like the
      upstream's name. */
  function Names(branch: string, name: string): string {
    branch + "..." + name
  }

  lemma NamesArePlain(branch: string, name: string)
    requires IsRefName(branch) && IsRefName(name)
    ensures ' ' !in Names(branch, name) && '[' !in Names(branch, name)
    ensures EndsWith(Names(branch, name), BEHIND) <==> EndsWith(name, BEHIND)
    ensures !EndsWith(Names(branch, name), AHEAD)
  {
    WordAfterDot(branch + "..", name, BEHIND);
    WordAfterDot(branch + "..", name, AHEAD);
    assert Names(branch, name) == branch + ".." + "." + name;
    assert AHEAD[0] == '[';
    MissingCharMeansNoSuffix(name, AHEAD, '[');
  }

  lemma MissingCharMeansNoSuffix(s: string, word: string, c: char)
    requires c in word && c !in s
    ensures !EndsWith(s, word)
  {
  }

  lemma WordAfterDot(before: string, name: string, word: string)
    requires '.' !in word
    ensures EndsWith(before + "." + name, word) <==> EndsWith(name, word)
  {
    var s := before + "." + name;
    if |word| <= |name| {
      assert s[|s| - |word|..] == name[|name| - |word|..];
    } else if |word| <= |s| {
      assert s[|s| - |word|..][|word| - |name| - 1] == '.';
    }
  }

  // ----- The counts -----

  lemma CountIsAfterMark(before: string, after: string, mark: string, c: char)
    requires c in mark && c !in after && Find(before + mark + after, mark) == Some(|before|)
    ensures Contains(before + mark + after, mark)
    ensures CountAfter(before + mark + after, mark) == Split(after, "]")[0]
  {
    MissingCharMeansNone(after, mark, c);
    CountIsAfter(before, after, mark);
  }

  lemma InsideStartsWithBracket(d: Divergence)
    ensures Inside(d) != "" && Inside(d)[0] == '['
  {
  }

  lemma DigitsArePlain(n: nat)
    ensures forall c :: c in " []," ==> c !in Show(n)
  {
  }

  lemma Words()
    ensures EndsWith(AHEAD, AHEAD) && EndsWith(BEHIND, BEHIND) && EndsWith("[behind", BEHIND)
    ensures !EndsWith(AHEAD, BEHIND) && !EndsWith("[behind", AHEAD) && !EndsWith(BEHIND, AHEAD)
    ensures ' ' !in AHEAD && ' ' !in BEHIND && ' ' !in "[behind" && '[' in AHEAD && ',' !in BEHIND
    ensures |AHEAD| == 6 && |BEHIND| == 6 && AHEAD[0] == '[' && BEHIND[0] != '['
  {
  }

  lemma WordNotIn(head: string, tail: string, word: string)
    requires ' ' !in head && ' ' !in word && ' ' !in tail && !EndsWith(head, word)
    ensures Find(head + " " + tail, word + " ") == None
  {
    FindWord(head, tail, word);
    MissingCharMeansNone(tail, word + " ", ' ');
  }

  lemma WordFirst(head: string, tail: string, word: string)
    requires ' ' !in head && ' ' !in word && EndsWith(head, word)
    ensures Find(head + " " + tail, word + " ") == Some(|head| - |word|)
  {
    FindWord(head, tail, word);
  }

  lemma WordLater(head: string, tail: string, word: string)
    requires ' ' !in head && ' ' !in word && !EndsWith(head, word) && Contains(tail, word + " ")
    ensures Find(head + " " + tail, word + " ") == Some(|head| + 1 + Find(tail, word + " ").value)
  {
    FindWord(head, tail, word);
  }

  /** The text behind the first mark, when that text holds no second one. */
  lemma CountIsAfter(before: string, after: string, mark: string)
    requires mark != "" && Find(before + mark + after, mark) == Some(|before|)
    requires Find(after, mark) == None
    ensures Contains(before + mark + after, mark)
    ensures CountAfter(before + mark + after, mark) == Split(after, "]")[0]
  {
    SplitOnce(before, after, mark);
  }

  lemma {:induction false} FirstPartAfter(before: string, s: string, c: char)
    requires c !in before
    ensures Split(before + s, [c])[0] == before + Split(s, [c])[0]
  {
    if before == "" {
      assert before + s == s;
    } else {
      var all := before + s;
      FirstPartAfter(before[1..], s, c);
      assert all[1..] == before[1..] + s;
      assert all[0] == before[0];
    }
  }

  lemma FirstPartStarts(s: string, c: char)
    ensures var first := Split(s, [c])[0];
            if s == "" || s[0] == c then first == "" else first != "" && first[0] == s[0]
  {
  }

  lemma FirstPieceStarts(s: string, sep: string)
    requires s != "" && sep != "" && s[0] != sep[0]
    ensures Split(s, sep)[0] != "" && Split(s, sep)[0][0] == s[0]
  {
  }

  // The number of commits ahead.

  /** What follows the number of commits ahead. */
  function AfterAhead(d: Divergence): string {
    if BehindOf(d) == 0 then "]" else "," + " " + (BEHIND + " " + (Show(BehindOf(d)) + "]"))
  }

  lemma AheadComesFirst(d: Divergence)
    requires AheadOf(d) > 0
    ensures Inside(d) == AHEAD + " " + (Show(d.ahead) + AfterAhead(d))
  {
  }

  lemma NothingAfterAhead(d: Divergence)
    ensures '[' !in AfterAhead(d) && AfterAhead(d) != "" && (AfterAhead(d)[0] == ']' || AfterAhead(d)[0] == ',')
  {
    DigitsArePlain(BehindOf(d));
  }

  lemma AheadMark(names: string, tail: string)
    requires ' ' !in names && '[' !in names
    ensures Find(names + " " + (AHEAD + " " + tail), AHEAD + " ") == Some(|names| + 1)
  {
    Words();
    MissingCharMeansNoSuffix(names, AHEAD, '[');
    WordFirst(AHEAD, tail, AHEAD);
    WordLater(names, AHEAD + " " + tail, AHEAD);
  }

  lemma NumberUpToEither(n: nat, rest: string)
    requires rest != "" && (rest[0] == ']' || rest[0] == ',')
    ensures PyInt(Split(Split(Show(n) + rest, "]")[0], ",")[0]) == Some(n)
  {
    var first := Split(rest, "]")[0];
    DigitsArePlain(n);
    FirstPartAfter(Show(n), rest, ']');
    FirstPartStarts(rest, ']');
    FirstPartAfter(Show(n), first, ',');
    FirstPartStarts(first, ',');
    assert Show(n) + "" == Show(n);
    PyIntOfShow(n);
  }

  lemma Regroup4(a: string, b: string, c: string, d: string)
    ensures a + b + (c + d) == (a + b) + c + d
  {
  }

  lemma NumberHoldsNoBracket(n: nat, rest: string)
    requires '[' !in rest
    ensures '[' !in Show(n) + rest
  {
    DigitsArePlain(n);
  }

  /** Where the heading counts commits ahead, what is read is the number at the start of `after`. */
  lemma AheadIsRead(names: string, after: string)
    requires ' ' !in names && '[' !in names && '[' !in after
    ensures AheadIn(names + " " + (AHEAD + " " + after)) == PyInt(Split(Split(after, "]")[0], ",")[0])
  {
    var before, mark := names + " ", AHEAD + " ";
    assert Find(before + (mark + after), mark) == Some(|before|) by { AheadMark(names, after); }
    Regroup(before, mark, after);
    AheadIsReadAt(before, after);
  }

  lemma AheadIsReadAt(before: string, after: string)
    requires '[' !in after && Find(before + (AHEAD + " ") + after, AHEAD + " ") == Some(|before|)
    ensures AheadIn(before + (AHEAD + " ") + after) == PyInt(Split(Split(after, "]")[0], ",")[0])
  {
    BracketInMark();
    CountIsAfterMark(before, after, AHEAD + " ", '[');
  }

  lemma BracketInMark()
    ensures '[' in AHEAD + " "
  {
    Words();
  }

  lemma NoAheadMark(names: string, d: Divergence)
    requires ' ' !in names && '[' !in names && AheadOf(d) == 0
    ensures Find(names + Bracket(d), AHEAD + " ") == None
  {
    Words();
    if Bracket(d) == "" {
      assert names + Bracket(d) == names;
      MissingCharMeansNone(names, AHEAD + " ", '[');
    } else {
      MissingCharMeansNoSuffix(names, AHEAD, '[');
      FindWord(names, Inside(d), AHEAD);
      Regroup(names, " ", Inside(d));
      NoAheadInside(d);
    }
  }

  lemma NoAheadInside(d: Divergence)
    requires Bracket(d) != "" && AheadOf(d) == 0
    ensures Find(Inside(d), AHEAD + " ") == None
  {
    Words();
    if d.Gone? {
      MissingCharMeansNone("[gone]", AHEAD + " ", ' ');
    } else {
      DigitsArePlain(d.behind);
      WordNotIn("[behind", Show(d.behind) + "]", AHEAD);
    }
  }

  lemma AheadReadsBack(names: string, d: Divergence)
    requires ' ' !in names && '[' !in names
    ensures OrElse(AheadIn(names + Bracket(d)), 0) == AheadOf(d)
  {
    if AheadOf(d) > 0 {
      AheadComesFirst(d);
      NothingAfterAhead(d);
      NumberHoldsNoBracket(d.ahead, AfterAhead(d));
      AheadIsRead(names, Show(d.ahead) + AfterAhead(d));
      NumberUpToEither(d.ahead, AfterAhead(d));
      Regroup(names, " ", Inside(d));
    } else {
      NoAheadMark(names, d);
    }
  }

  // The number of commits behind.

  /** The bracket up to the word "behind", where it counts commits behind. */
  function BehindLead(d: Divergence): string {
    if AheadOf(d) == 0 then "[" else AHEAD + " " + (Show(AheadOf(d)) + "," + " ")
  }

  lemma BehindComesLast(d: Divergence)
    requires BehindOf(d) > 0
    ensures Inside(d) == BehindLead(d) + (BEHIND + " ") + (Show(d.behind) + "]")
  {
    assert "[behind" == "[" + BEHIND;
  }

  lemma BehindSecond(count: string, number: string)
    requires ' ' !in count && ' ' !in number && !EndsWith(count, BEHIND)
    ensures Find(AHEAD + " " + (count + " " + (BEHIND + " " + number)), BEHIND + " ") == Some(|count| + 8)
  {
    Words();
    WordFirst(BEHIND, number, BEHIND);
    WordLater(count, BEHIND + " " + number, BEHIND);
    WordLater(AHEAD, count + " " + (BEHIND + " " + number), BEHIND);
  }

  lemma BehindInside(d: Divergence)
    requires BehindOf(d) > 0
    ensures Find(Inside(d), BEHIND + " ") == Some(|BehindLead(d)|)
  {
    Words();
    DigitsArePlain(d.behind);
    var number := Show(d.behind) + "]";
    if d.ahead == 0 {
      WordFirst("[behind", number, BEHIND);
    } else {
      var count := Show(d.ahead) + ",";
      DigitsArePlain(d.ahead);
      MissingLastChar(count, BEHIND, ',');
      BehindSecond(count, number);
    }
  }

  lemma MissingLastChar(s: string, word: string, c: char)
    requires s != "" && word != "" && s[|s| - 1] == c && c !in word
    ensures !EndsWith(s, word)
  {
  }

  lemma NoBehindInside(d: Divergence)
    requires Bracket(d) != "" && BehindOf(d) == 0
    ensures Find(Inside(d), BEHIND + " ") == None
  {
    Words();
    if d.Gone? {
      MissingCharMeansNone("[gone]", BEHIND + " ", ' ');
    } else {
      DigitsArePlain(d.ahead);
      WordNotIn(AHEAD, Show(d.ahead) + "]", BEHIND);
    }
  }

  lemma NamesHoldNoMark(names: string)
    requires ' ' !in names
    ensures Find(names + "", BEHIND + " ") == None
  {
    assert names + "" == names;
    MissingCharMeansNone(names, BEHIND + " ", ' ');
  }

  /** No name in the way: the count is read back. */
  lemma BehindReadsBack(names: string, d: Divergence)
    requires ' ' !in names && !EndsWith(names, BEHIND)
    ensures OrElse(BehindIn(names + Bracket(d)), 0) == BehindOf(d)
  {
    if Bracket(d) == "" {
      NamesHoldNoMark(names);
    } else {
      Regroup(names, " ", Inside(d));
      Words();
      if BehindOf(d) == 0 {
        NoBehindInside(d);
        FindWord(names, Inside(d), BEHIND);
      } else {
        BehindInside(d);
        WordLater(names, Inside(d), BEHIND);
        BehindComesLast(d);
        CountIsRead(names, BehindLead(d), d.behind);
      }
    }
  }

  lemma CountIsRead(names: string, lead: string, n: nat)
    requires var info := names + " " + (lead + (BEHIND + " ") + (Show(n) + "]"));
             Find(info, BEHIND + " ") == Some(|names| + 1 + |lead|)
    ensures var info := names + " " + (lead + (BEHIND + " ") + (Show(n) + "]"));
            BehindIn(info) == Some(n)
  {
    Regroup(names + " ", lead + (BEHIND + " "), Show(n) + "]");
    Regroup(names + " ", lead, BEHIND + " ");
    NumberIsRead(names + " " + lead, BEHIND + " ", n);
  }

  lemma NumberHoldsNoBlank(n: nat)
    ensures ' ' !in Show(n) + "]"
  {
    DigitsArePlain(n);
  }

  lemma NumberIsRead(before: string, mark: string, n: nat)
    requires mark != "" && ' ' in mark && Find(before + mark + (Show(n) + "]"), mark) == Some(|before|)
    ensures Contains(before + mark + (Show(n) + "]"), mark)
    ensures PyInt(CountAfter(before + mark + (Show(n) + "]"), mark)) == Some(n)
  {
    NumberHoldsNoBlank(n);
    CountIsAfterMark(before, Show(n) + "]", mark, ' ');
    NumberUpToBracket(n);
  }

  lemma NumberUpToBracket(n: nat)
    ensures PyInt(Split(Show(n) + "]", "]")[0]) == Some(n)
  {
    DigitsArePlain(n);
    FirstPartAfter(Show(n), "]", ']');
    FirstPartStarts("]", ']');
    assert Show(n) + "" == Show(n);
    PyIntOfShow(n);
  }

  /** A name ending in "behind" hides the count: what is read starts with the bracket. */
  lemma NameHidesBehind(names: string, d: Divergence)
    requires ' ' !in names && EndsWith(names, BEHIND)
    ensures OrElse(BehindIn(names + Bracket(d)), 0) == 0
  {
    if Bracket(d) == "" {
      NamesHoldNoMark(names);
    } else {
      Regroup(names, " ", Inside(d));
      InsideStartsWithBracket(d);
      NothingAfterName(names, Inside(d));
    }
  }

  lemma NothingAfterName(names: string, inside: string)
    requires ' ' !in names && EndsWith(names, BEHIND) && inside != "" && inside[0] == '['
    ensures BehindIn(names + " " + inside) == None
  {
    Words();
    WordFirst(names, inside, BEHIND);
    var before := names[..|names| - 6];
    assert names == before + BEHIND;
    Regroup4(before, BEHIND, " ", inside);
    Regroup(before, BEHIND, " ");
    NothingReadable(before, BEHIND + " ", inside);
  }

  lemma NothingReadable(before: string, mark: string, inside: string)
    requires mark != "" && inside != "" && inside[0] == '[' && mark[0] != '['
    requires Find(before + mark + inside, mark) == Some(|before|)
    ensures Contains(before + mark + inside, mark) && PyInt(CountAfter(before + mark + inside, mark)) == None
  {
    SplitOnce(before, inside, mark);
    FirstPieceStarts(inside, mark);
    FirstPartStarts(Split(inside, mark)[0], ']');
    NoIntAfterBracket(CountAfter(before + mark + inside, mark));
  }

  // ----- The whole output -----

  /** What the parser reads for the behind count. */
  function BehindRead(repo: Repository): nat {
    if UpstreamEndsInBehind(repo) then 0 else Behind(repo)
  }

  lemma TrackedCounts(name: string, upstream: Upstream)
    requires IsRefName(name) && (upstream.Upstream? ==> IsRefName(upstream.name))
    ensures var info, repo := Tracking(name, upstream), Repository(OnBranch(name), upstream, []);
            OrElse(AheadIn(info), 0) == Ahead(repo) && OrElse(BehindIn(info), 0) == BehindRead(repo)
  {
    Words();
    if upstream.NoUpstream? {
      assert Tracking(name, upstream) == name;
      MissingCharMeansNone(name, AHEAD + " ", '[');
      MissingCharMeansNone(name, BEHIND + " ", ' ');
    } else {
      var names := Names(name, upstream.name);
      TrackingIs(name, upstream);
      NamesArePlain(name, upstream.name);
      AheadReadsBack(names, upstream.divergence);
      if EndsWith(upstream.name, BEHIND) {
        NameHidesBehind(names, upstream.divergence);
      } else {
        BehindReadsBack(names, upstream.divergence);
      }
    }
  }

  function Shifted(i: Option<nat>, n: nat): Option<nat> {
    match i case None => None case Some(k) => Some(n + k)
  }

  lemma PastWord(head: string, tail: string, word: string)
    requires ' ' !in head && ' ' !in word && !EndsWith(head, word)
    ensures Find(head + " " + tail, word + " ") == Shifted(Find(tail, word + " "), |head| + 1)
  {
    FindWord(head, tail, word);
  }

  /** A word that the notice does not hold is found in the text after it. */
  lemma FindPastNotice(text: string, word: string)
    requires word == AHEAD || word == BEHIND
    ensures Find(Noticed(text), word + " ") == Shifted(Find(text, word + " "), 18)
  {
    assert ' ' !in word by { Words(); }
    NoticeWords(word);
    FindPastWords("No", "commits", "yet", "on", text, word);
  }

  lemma FindPastWords(a: string, b: string, c: string, d: string, text: string, word: string)
    requires ' ' !in a && ' ' !in b && ' ' !in c && ' ' !in d && ' ' !in word
    requires !EndsWith(a, word) && !EndsWith(b, word) && !EndsWith(c, word) && !EndsWith(d, word)
    ensures Find(a + " " + (b + " " + (c + " " + (d + " " + text))), word + " ") ==
            Shifted(Find(text, word + " "), |a| + |b| + |c| + |d| + 4)
  {
    PastWord(d, text, word);
    PastWord(c, d + " " + text, word);
    PastWord(b, c + " " + (d + " " + text), word);
    PastWord(a, b + " " + (c + " " + (d + " " + text)), word);
  }

  lemma NoticeWords(word: string)
    requires word == AHEAD || word == BEHIND
    ensures !EndsWith("No", word) && !EndsWith("commits", word) && !EndsWith("yet", word) && !EndsWith("on", word)
    ensures ' ' !in "No" && ' ' !in "commits" && ' ' !in "yet" && ' ' !in "on"
  {
    assert "commits"[6] == 's' && AHEAD[5] != 's' && BEHIND[5] != 's';
  }

  lemma UnbornAhead(names: string)
    requires ' ' !in names && '[' !in names
    ensures Find(Noticed(names), AHEAD + " ") == None
    ensures Find(Noticed(names + " " + "[gone]"), AHEAD + " ") == None
  {
    Words();
    FindPastNotice(names, AHEAD);
    MissingCharMeansNone(names, AHEAD + " ", ' ');
    FindPastNotice(names + " " + "[gone]", AHEAD);
    MissingCharMeansNoSuffix(names, AHEAD, '[');
    WordNotIn(names, "[gone]", AHEAD);
  }

  lemma UnbornBehind(names: string)
    requires ' ' !in names
    ensures BehindIn(Noticed(names)) == None
  {
    BlankInMark();
    FindPastNotice(names, BEHIND);
    MissingCharMeansNone(names, BEHIND + " ", ' ');
  }

  lemma BlankInMark()
    ensures ' ' in BEHIND + " " && ' ' !in BEHIND && ' ' !in "[gone]"
  {
    assert (BEHIND + " ")[6] == ' ';
  }

  /** Before an upstream that is gone, nothing is read either, whatever the names end in. */
  lemma UnbornGoneBehind(names: string)
    requires ' ' !in names
    ensures BehindIn(Noticed(names + " " + "[gone]")) == None
  {
    BlankInMark();
    FindPastNotice(names + " " + "[gone]", BEHIND);
    if EndsWith(names, BEHIND) {
      WordFirst(names, "[gone]", BEHIND);
      GoneIsNoNumber(names);
    } else {
      WordNotIn(names, "[gone]", BEHIND);
    }
  }

  lemma GoneIsNoNumber(names: string)
    requires EndsWith(names, BEHIND)
    requires Find(Noticed(names + " " + "[gone]"), BEHIND + " ") == Some(18 + (|names| - 6))
    ensures BehindIn(Noticed(names + " " + "[gone]")) == None
  {
    var before := names[..|names| - 6];
    assert names + " " + "[gone]" == before + ((BEHIND + " ") + "[gone]");
    NoticeGoesAhead(before, (BEHIND + " ") + "[gone]");
    NoticeIsPrefix(before);
    Regroup(Noticed(before), BEHIND + " ", "[gone]");
    Words();
    NothingReadable(Noticed(before), BEHIND + " ", "[gone]");
  }

  lemma UnbornCounts(name: string, upstream: Upstream)
    requires IsRefName(name) && (upstream.Upstream? ==> IsRefName(upstream.name) && upstream.divergence.Gone?)
    ensures OrElse(AheadIn(Noticed(Tracking(name, upstream))), 0) == 0
    ensures OrElse(BehindIn(Noticed(Tracking(name, upstream))), 0) == 0
  {
    if upstream.NoUpstream? {
      assert Tracking(name, upstream) == name;
      UnbornAhead(name);
      UnbornBehind(name);
    } else {
      var names := Names(name, upstream.name);
      TrackingIs(name, upstream);
      NamesArePlain(name, upstream.name);
      Regroup(names, " ", "[gone]");
      UnbornAhead(names);
      UnbornGoneBehind(names);
    }
  }

  lemma CountsReadBack(repo: Repository)
    requires IsPrintable(repo)
    ensures OrElse(AheadIn(Heading(repo)), 0) == Ahead(repo)
    ensures OrElse(BehindIn(Heading(repo)), 0) == BehindRead(repo)
  {
    match repo.head
    case OnBranch(name) => TrackedCounts(name, repo.upstream);
    case Unborn(name) => UnbornCounts(name, repo.upstream);
    case Detached =>
      DetachedHasNoMarks();
      MissingCharMeansNone(Heading(repo), AHEAD + " ", '[');
      MissingCharMeansNone(Heading(repo), BEHIND + " ", 'd');
  }

  lemma DetachedHasNoMarks()
    ensures '[' in AHEAD + " " && 'd' in BEHIND + " "
    ensures var text := "HEAD" + " " + "(no branch)"; '[' !in text && 'd' !in text
  {
    assert AHEAD[0] == '[' && BEHIND[5] == 'd';
  }

  lemma HeadingReadsBack(repo: Repository)
    requires IsPrintable(repo)
    ensures AfterLine(NOTHING_SEEN, "## " + Heading(repo)) ==
            Some(Status(BranchRead(repo), Ahead(repo), BehindRead(repo), [], [], []))
  {
    assert ("## " + Heading(repo))[3..] == Heading(repo);
    BranchReadsBack(repo);
    CountsReadBack(repo);
  }

  lemma StatusIsRead(repo: Repository)
    requires IsPrintable(repo)
    ensures Parsed(Printed(repo)) == Some(Answer(repo, BehindRead(repo)))
  {
    LinesReadBack(repo);
    HeadingReadsBack(repo);
    OneLineMore(NOTHING_SEEN, "## " + Heading(repo), EntryLines(repo.entries));
    EntriesReadBack(Answer(repo.(entries := []), BehindRead(repo)), repo.entries);
    ExtendedFromNothing(repo, BehindRead(repo));
  }

  lemma OneLineMore(status: Status, line: string, lines: seq<string>)
    ensures AfterLines(status, [line] + lines) ==
            match AfterLine(status, line) case None => None case Some(next) => AfterLines(next, lines)
  {
    assert ([line] + lines)[1..] == lines;
  }

  lemma ExtendedFromNothing(repo: Repository, behind: nat)
    requires AllEntries(repo.entries)
    ensures var shown := AllShown(repo.entries);
            Extended(Answer(repo.(entries := []), behind), StagedOf(shown), UnstagedOf(shown), UntrackedOf(shown)) ==
            Answer(repo, behind)
  {
  }

  /** Everything git printed is read back as printed, with two exceptions. The branch is lost exactly when it has no
      commits yet (and is not called "No" without an upstream), the behind count exactly when the upstream's name ends
      in "behind" and there is something to count. */
  lemma StatusReadsBack(repo: Repository)
    requires IsPrintable(repo)
    ensures var parsed, shown := Parsed(Printed(repo)), AllShown(repo.entries);
            && parsed.Some?
            && parsed.value.ahead == Ahead(repo)
            && (if repo.head.Detached? then parsed.value.branch == "HEAD"
                else (parsed.value.branch == repo.head.name <==>
                      repo.head.OnBranch? || (repo.upstream.NoUpstream? && repo.head.name == "No")))
            && parsed.value.staged == StagedOf(shown)
            && parsed.value.unstaged == UnstagedOf(shown)
            && parsed.value.untracked == UntrackedOf(shown)
            && (parsed.value.behind == Behind(repo) <==> !UpstreamEndsInBehind(repo) || Behind(repo) == 0)
  {
    StatusIsRead(repo);
    BranchReadsBack(repo);
  }

  /** The three lists that are read are the true ones if and only if no path needs quotes and nothing was renamed or
      copied. */
  lemma ListsReadBackExactly(repo: Repository)
    requires IsPrintable(repo)
    ensures var parsed := Parsed(Printed(repo));
            && parsed.Some?
            && (parsed.value.staged == StagedOf(repo.entries)
                && parsed.value.unstaged == UnstagedOf(repo.entries)
                && parsed.value.untracked == UntrackedOf(repo.entries)
                <==> forall e :: e in repo.entries ==> IsPlain(e))
  {
    StatusIsRead(repo);
    PathsReadBackExactly(repo.entries);
  }

  lemma CleanMeansNoEntries(repo: Repository)
    requires IsPrintable(repo)
    ensures Parsed(Printed(repo)).Some?
    ensures Parsed(Printed(repo)).value.IsClean() <==> repo.entries == []
  {
    StatusIsRead(repo);
    if repo.entries != [] {
      assert IsEntry(repo.entries[0]);
      assert AllShown(repo.entries)[0] == AsShown(repo.entries[0]);
    }
  }

  /** What is reported of a single entry on `main`. */
  lemma OneEntryReported(entry: Entry) returns (repo: Repository)
    requires IsEntry(entry)
    ensures IsPrintable(repo) && repo.entries == [entry]
    ensures Parsed(Printed(repo)).Some?
    ensures Parsed(Printed(repo)).value.staged == StagedIn(AsShown(entry))
    ensures Parsed(Printed(repo)).value.untracked == UntrackedIn(AsShown(entry))
  {
    repo := Repository(OnBranch("main"), NoUpstream, [entry]);
    SimpleName("main");
    StatusIsRead(repo);
    OneShown(entry);
    OneListed(AsShown(entry));
  }

  lemma OneShown(entry: Entry)
    requires IsEntry(entry)
    ensures AllShown([entry]) == [AsShown(entry)]
  {
  }

  lemma OneListed(entry: Entry)
    ensures StagedOf([entry]) == StagedIn(entry) && UntrackedOf([entry]) == UntrackedIn(entry)
  {
  }

  /** The untracked file `a b` is reported with the quotes that git put around it. */
  lemma QuotesAreKept() returns (repo: Repository)
    ensures IsPrintable(repo) && repo.entries == [Untracked("a b")]
    ensures Parsed(Printed(repo)).Some? && Parsed(Printed(repo)).value.untracked == ["\"a b\""]
  {
    ShownInQuotes();
    repo := OneEntryReported(Untracked("a b"));
  }

  lemma ShownInQuotes()
    ensures IsPath("a b") && Quoted("a b") == "\"a b\""
  {
    var path := "a b";
    assert path[1] == ' ';
    assert path[1..] == " b" && " b"[1..] == "b" && "b"[1..] == "";
    assert EscapeAll("b") == "b";
    assert EscapeAll(" b") == " b";
  }

  /** A renamed file is reported under both its names. */
  lemma ArrowIsKept(from: string, path: string) returns (repo: Repository)
    requires IsPath(from) && IsPath(path) && !NeedsQuotes(from) && !NeedsQuotes(path)
    ensures IsPrintable(repo) && repo.entries == [Changed(Renamed, Unmodified, path, Some(from))]
    ensures Parsed(Printed(repo)).Some?
    ensures Parsed(Printed(repo)).value.staged == [Change(from + " -> " + path, "renamed")]
  {
    RenameShown(from, path);
    repo := OneEntryReported(Changed(Renamed, Unmodified, path, Some(from)));
  }

  lemma RenameShown(from: string, path: string)
    requires IsPath(from) && IsPath(path) && !NeedsQuotes(from) && !NeedsQuotes(path)
    ensures var entry := Changed(Renamed, Unmodified, path, Some(from));
            IsEntry(entry) && StagedIn(AsShown(entry)) == [Change(from + " -> " + path, "renamed")]
  {
  }

  /** Two commits behind `origin/lag-behind`, reported as none. */
  lemma BehindCountIsLost() returns (repo: Repository)
    ensures IsPrintable(repo) && Behind(repo) == 2
    ensures Parsed(Printed(repo)).Some? && Parsed(Printed(repo)).value.behind == 0
  {
    var name := "origin/lag-behind";
    repo := Repository(OnBranch("main"), Upstream(name, Counts(0, 2)), []);
    SimpleName("main");
    SimpleName(name);
    EndsInBehind(name);
    StatusIsRead(repo);
  }

  /** A repository without commits is reported on a branch called "No". */
  lemma UnbornBranchIsLost() returns (repo: Repository)
    ensures IsPrintable(repo) && repo.head == Unborn("main")
    ensures Parsed(Printed(repo)).Some? && Parsed(Printed(repo)).value.branch == "No"
  {
    repo := Repository(Unborn("main"), NoUpstream, []);
    SimpleName("main");
    StatusIsRead(repo);
  }

  lemma SimpleName(name: string)
    requires name != "" && forall i :: 0 <= i < |name| ==> 'a' <= name[i] <= 'z' || name[i] == '/' || name[i] == '-'
    ensures IsRefName(name)
  {
  }

  lemma EndsInBehind(name: string)
    requires name == "origin/lag-behind"
    ensures EndsWith(name, BEHIND)
  {
    assert name == "origin/lag-" + BEHIND;
  }
}
