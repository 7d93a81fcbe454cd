/** The stale-folder check of mail/sync.py: far and local folder names, the stale
    test, and the moves out of the Maildir. */
module StaleFolders {
  import opened Common
  import opened ImapList
  import Utf7 = ModifiedUtf7
  import Separators

  // ---- Names ------------------------------------------------------------------

  /** `s.replace(pat, ".")` for a non-empty pattern. */
  function ReplaceAll(s: string, pat: string): string
    requires pat != ""
  {
    if |s| < |pat| then s
    else if pat <= s then "." + ReplaceAll(s[|pat|..], pat)
    else [s[0]] + ReplaceAll(s[1..], pat)
  }

  lemma {:induction false} ReplaceAllOne(s: string, c: char)
    ensures ReplaceAll(s, [c]) == ReplaceChar(s, c, '.')
  {
    if s != "" {
      ReplaceAllOne(s[1..], c);
    }
  }

  /** Text without the pattern stays, and of text with it everything up to the end of its
      first occurrence becomes that text and a dot. */
  lemma {:induction false} ReplaceAllExact(text: string, pat: string, rest: string)
    requires pat != ""
    requires forall i :: 0 <= i < |text| ==> !(pat <= (text + pat + rest)[i..])
    ensures ReplaceAll(text + pat + rest, pat) == text + "." + ReplaceAll(rest, pat)
  {
    var s := text + pat + rest;
    if text == "" {
      assert s == pat + rest;
    } else {
      var t := text[1..];
      assert s[0..] == s && s[1..] == t + pat + rest;
      forall i | 0 <= i < |t| ensures !(pat <= (t + pat + rest)[i..]) {
        assert s[1..][i..] == s[i + 1..];
      }
      assert ReplaceAll(s, pat) == [s[0]] + ReplaceAll(s[1..], pat);
      hide ReplaceAll;
      ReplaceAllExact(t, pat, rest);
      assert [s[0]] + (t + "." + ReplaceAll(rest, pat)) == text + "." + ReplaceAll(rest, pat);
    }
  }

  lemma {:induction false} ReplaceAllNone(s: string, pat: string)
    requires pat != "" && forall i :: 0 <= i < |s| ==> !(pat <= s[i..])
    ensures ReplaceAll(s, pat) == s
  {
    if |s| >= |pat| {
      assert s[0..] == s;
      forall i | 0 <= i < |s| - 1 ensures !(pat <= s[1..][i..]) {
        assert s[1..][i..] == s[i + 1..];
      }
      ReplaceAllNone(s[1..], pat);
    }
  }

  /** A folder name with its hierarchy separator as Maildir++ writes it. */
  function Translate(name: string, sep: string): string {
    if sep == "" then name else ReplaceAll(name, sep)
  }

  /** The translated name, for separators of any length: a name without the separator stays,
      and in any other the first occurrence becomes a dot and the rest is translated. */
  lemma TranslateExact(name: string, sep: string, text: string, rest: string)
    ensures sep == "" || (forall i :: 0 <= i < |name| ==> !(sep <= name[i..])) ==> Translate(name, sep) == name
    ensures sep != "" && name == text + sep + rest && (forall i :: 0 <= i < |text| ==> !(sep <= name[i..])) ==>
              Translate(name, sep) == text + "." + Translate(rest, sep)
  {
    if sep != "" {
      if forall i :: 0 <= i < |name| ==> !(sep <= name[i..]) {
        ReplaceAllNone(name, sep);
      }
      if name == text + sep + rest && (forall i :: 0 <= i < |text| ==> !(sep <= name[i..])) {
        ReplaceAllExact(text, sep, rest);
      }
    }
  }

  function FarNames(entries: seq<Entry>): set<string> {
    set e | e in entries :: Translate(e.name, e.sep)
  }

  lemma FarNamesAppend(entries: seq<Entry>, e: Entry)
    ensures FarNames(entries + [e]) == FarNames(entries) + {Translate(e.name, e.sep)}
  {
  }

  function FarSide(lines: seq<Line>): Result<set<string>> {
    var entries :- Parse(lines);
    Ok(FarNames(entries))
  }

  method CollectNames(entries: seq<Entry>) returns (names: set<string>)
    ensures names == FarNames(entries)
  {
    names := {};
    for i := 0 to |entries|
      invariant names == FarNames(entries[..i])
    {
      assert entries[..i + 1] == entries[..i] + [entries[i]];
      FarNamesAppend(entries[..i], entries[i]);
      names := names + {Translate(entries[i].name, entries[i].sep)};
    }
    assert entries[..|entries|] == entries;
  }

  method FarSideFolders(lines: seq<Line>) returns (r: Result<set<string>>)
    ensures r == FarSide(lines)
  {
    var entries := ParseList(lines);
    if entries.Err? {
      return Err(entries.error);
    }
    var names := CollectNames(entries.value);
    return Ok(names);
  }

  /** An entry of the Maildir: its name, and whether `isdir` holds of it. */
  datatype Found = Found(name: string, isDir: bool)

  predicate IsSubfolder(dir: string) { dir != "" && dir[0] == '.' }

  datatype Local = Local(decoded: string, raw: string)

  /** Decoded names of the Maildir++ subfolders in a directory listing. */
  function LocalFolders(listing: seq<Found>): Result<seq<Local>> {
    if listing == [] then Ok([])
    else if !IsSubfolder(listing[0].name) || !listing[0].isDir then LocalFolders(listing[1..])
    else
      var raw := listing[0].name[1..];
      match Utf7.Decode(raw)
      case Err(e) => Err(e)
      case Ok(decoded) => Prepend([Local(decoded, raw)], LocalFolders(listing[1..]))
  }

  method LocalSubfolders(listing: seq<Found>) returns (r: Result<seq<Local>>)
    ensures r == LocalFolders(listing)
  {
    var out := [];
    PrependNothing(LocalFolders(listing));
    assert listing[0..] == listing;
    for i := 0 to |listing|
      invariant LocalFolders(listing) == Prepend(out, LocalFolders(listing[i..]))
    {
      assert listing[i..][1..] == listing[i + 1..];
      if IsSubfolder(listing[i].name) && listing[i].isDir {
        var raw := listing[i].name[1..];
        var decoded := Utf7.ImapUtf7Decode(raw);
        if decoded.Err? {
          return Err(decoded.error);
        }
        PrependAssociative(out, [Local(decoded.value, raw)], LocalFolders(listing[i + 1..]));
        out := out + [Local(decoded.value, raw)];
      }
    }
    assert out + [] == out;
    return Ok(out);
  }

  /** The subfolders no far name accounts for, INBOX excepted. */
  function Stale(local: seq<Local>, far: set<string>): seq<Local> {
    if local == [] then []
    else (if local[0].decoded in far + {"INBOX"} then [] else [local[0]]) + Stale(local[1..], far)
  }

  /** Directory `dir` is a subfolder whose decoded name is not on the far side. */
  ghost predicate IsStale(dir: string, far: set<string>) {
    IsSubfolder(dir) && Utf7.Decode(dir[1..]).Ok? && Utf7.Decode(dir[1..]).value !in far + {"INBOX"}
  }

  // ---- The moves ----------------------------------------------------------------

  type Path = seq<string>

  /** A user's area: the directories of the Maildir, and what stale-folders holds. */
  datatype Area<F> = Area(dirs: map<string, F>, kept: map<Path, F>)

  /** Where `shutil.move` puts a directory: at the target, or inside it when the
      target is already there; an error when that place is taken too. */
  function Destination(kept: set<Path>, local: Local, stamp: string): Option<Path> {
    var top := [local.decoded + "-" + stamp];
    if top !in kept then Some(top)
    else if top + ["." + local.raw] !in kept then Some(top + ["." + local.raw])
    else None
  }

  /** One move; `fails` are the directories whose move raises OSError. */
  function Move<F>(a: Area<F>, local: Local, stamp: string, fails: set<string>): Area<F> {
    var dir := "." + local.raw;
    var dst := Destination(a.kept.Keys, local, stamp);
    if dir !in a.dirs || dir in fails || dst.None? then a
    else Area(a.dirs - {dir}, a.kept[dst.value := a.dirs[dir]])
  }

  function MoveAll<F>(a: Area<F>, stale: seq<Local>, stamp: string, fails: set<string>): Area<F>
    decreases |stale|
  {
    if stale == [] then a else MoveAll(Move(a, stale[0], stamp, fails), stale[1..], stamp, fails)
  }

  /** `quarantine_stale_folders`, unless a local name cannot be decoded. */
  function Quarantine<F>(a: Area<F>, listing: seq<Found>, far: set<string>, stamp: string, fails: set<string>)
    : Result<Area<F>>
  {
    var local :- LocalFolders(listing);
    Ok(MoveAll(a, Stale(local, far), stamp, fails))
  }

  class Mailbox<F> {
    var dirs: map<string, F>
    var kept: map<Path, F>

    function View(): Area<F>
      reads this
    {
      Area(dirs, kept)
    }

    constructor (dirs: map<string, F>, kept: map<Path, F>)
      ensures View() == Area(dirs, kept)
    {
      this.dirs, this.kept := dirs, kept;
    }

    method QuarantineStaleFolders(listing: seq<Found>, far: set<string>, stamp: string, fails: set<string>)
      returns (raised: Option<Error>)
      modifies this
      ensures var r := Quarantine(old(View()), listing, far, stamp, fails);
              if r.Ok? then raised == None && View() == r.value
              else raised == Some(r.error) && View() == old(View())
    {
      var local := LocalSubfolders(listing);
      if local.Err? {
        return Some(local.error);
      }
      var stale := Stale(local.value, far);
      assert stale[0..] == stale;
      for i := 0 to |stale|
        invariant MoveAll(old(View()), stale, stamp, fails) == MoveAll(View(), stale[i..], stamp, fails)
      {
        assert stale[i..][1..] == stale[i + 1..];
        var src := "." + stale[i].raw;
        var dst := Destination(kept.Keys, stale[i], stamp);
        if src in dirs && src !in fails && dst.Some? {
          kept := kept[dst.value := dirs[src]];
          dirs := dirs - {src};
        }
      }
      return None;
    }
  }

  // ---- Conservation ---------------------------------------------------------------

  /** `b` is `a` after the directories in `moved` went, contents and all, to fresh
      and different places; nothing else changed. */
  ghost predicate MovedBy<F(!new)>(a: Area<F>, b: Area<F>, moved: map<string, Path>) {
    && moved.Keys <= a.dirs.Keys
    && b.dirs == a.dirs - moved.Keys
    && (forall d, e :: d in moved && e in moved && moved[d] == moved[e] ==> d == e)
    && (forall d :: d in moved ==> moved[d] !in a.kept && moved[d] in b.kept && b.kept[moved[d]] == a.dirs[d])
    && (forall p :: p in a.kept ==> p in b.kept && b.kept[p] == a.kept[p])
    && (forall p :: p in b.kept && p !in a.kept ==> exists d :: d in moved && moved[d] == p)
  }

  /** The moves that happened, as the log lines report them. */
  ghost function Moves<F>(a: Area<F>, stale: seq<Local>, stamp: string, fails: set<string>): map<string, Path>
    decreases |stale|
  {
    if stale == [] then map[]
    else
      var b := Move(a, stale[0], stamp, fails);
      var rest := Moves(b, stale[1..], stamp, fails);
      if b == a then rest else rest["." + stale[0].raw := Destination(a.kept.Keys, stale[0], stamp).value]
  }

  lemma MoveConserves<F(!new)>(a: Area<F>, b: Area<F>, c: Area<F>, dir: string, dst: Path, moved: map<string, Path>)
    requires dir in a.dirs && dst !in a.kept && b == Area(a.dirs - {dir}, a.kept[dst := a.dirs[dir]])
    requires MovedBy(b, c, moved)
    ensures MovedBy(a, c, moved[dir := dst])
  {
    var m := moved[dir := dst];
    assert c.dirs == a.dirs - m.Keys;
    forall p | p in c.kept && p !in a.kept ensures exists d :: d in m && m[d] == p {
      if p == dst {
        assert m[dir] == p;
      } else {
        var d :| d in moved && moved[d] == p;
        assert m[d] == p;
      }
    }
  }

  lemma {:induction false} MovesConserve<F(!new)>(a: Area<F>, stale: seq<Local>, stamp: string, fails: set<string>)
    ensures MovedBy(a, MoveAll(a, stale, stamp, fails), Moves(a, stale, stamp, fails))
    ensures forall d :: d in Moves(a, stale, stamp, fails) ==> exists l :: l in stale && d == "." + l.raw
    decreases |stale|
  {
    if stale != [] {
      var b := Move(a, stale[0], stamp, fails);
      var rest := Moves(b, stale[1..], stamp, fails);
      MovesConserve(b, stale[1..], stamp, fails);
      if b != a {
        MoveConserves(a, b, MoveAll(b, stale[1..], stamp, fails), "." + stale[0].raw,
                      Destination(a.kept.Keys, stale[0], stamp).value, rest);
      }
      forall d | d in Moves(a, stale, stamp, fails) ensures exists l :: l in stale && d == "." + l.raw {
        if d in rest {
          var l :| l in stale[1..] && d == "." + l.raw;
          assert l in stale;
        } else {
          assert stale[0] in stale;
        }
      }
    }
  }

  // ---- What is moved, and what stays --------------------------------------------------

  lemma {:induction false} LocalFoldersExact(listing: seq<Found>)
    requires LocalFolders(listing).Ok?
    ensures forall l :: l in LocalFolders(listing).value ==>
              Found("." + l.raw, true) in listing && Utf7.Decode(l.raw) == Ok(l.decoded)
    ensures forall d :: Found(d, true) in listing && IsSubfolder(d) ==>
              Utf7.Decode(d[1..]).Ok? && Local(Utf7.Decode(d[1..]).value, d[1..]) in LocalFolders(listing).value
  {
    if listing != [] {
      assert LocalFolders(listing[1..]).Ok?;
      LocalFoldersExact(listing[1..]);
      assert forall d :: d in listing <==> d == listing[0] || d in listing[1..];
      if IsSubfolder(listing[0].name) {
        assert "." + listing[0].name[1..] == listing[0].name;
      }
    }
  }

  lemma {:induction false} StaleExact(local: seq<Local>, far: set<string>)
    ensures forall l :: l in Stale(local, far) <==> l in local && l.decoded !in far + {"INBOX"}
  {
    if local != [] {
      StaleExact(local[1..], far);
      assert forall l :: l in local <==> l == local[0] || l in local[1..];
    }
  }

  /** The check conserves every folder with its contents; only stale folders move,
      so INBOX and every live folder stay where they are. */
  lemma QuarantineConserves<F(!new)>(a: Area<F>, listing: seq<Found>, far: set<string>, stamp: string, fails: set<string>)
    requires Quarantine(a, listing, far, stamp, fails).Ok?
    ensures var b := Quarantine(a, listing, far, stamp, fails).value;
            && (exists moved :: MovedBy(a, b, moved) && forall d :: d in moved ==> IsStale(d, far) && d !in fails)
            && (forall d :: d in a.dirs && !IsStale(d, far) ==> d in b.dirs && b.dirs[d] == a.dirs[d])
  {
    var local := LocalFolders(listing).value;
    var stale := Stale(local, far);
    var moved := Moves(a, stale, stamp, fails);
    MovesConserve(a, stale, stamp, fails);
    MovesSkipFailures(a, stale, stamp, fails);
    LocalFoldersExact(listing);
    StaleExact(local, far);
    forall d | d in moved ensures IsStale(d, far) {
      var l :| l in stale && d == "." + l.raw;
      assert d[1..] == l.raw;
    }
    assert MovedBy(a, MoveAll(a, stale, stamp, fails), moved);
  }

  lemma {:induction false} MovesSkipFailures<F(!new)>(a: Area<F>, stale: seq<Local>, stamp: string, fails: set<string>)
    ensures Moves(a, stale, stamp, fails).Keys !! fails
    decreases |stale|
  {
    if stale != [] {
      MovesSkipFailures(Move(a, stale[0], stamp, fails), stale[1..], stamp, fails);
    }
  }

  /** A stale folder leaves unless its move fails or its place is already taken. */
  lemma {:induction false} MoveAllMoves<F(!new)>(a: Area<F>, stale: seq<Local>, stamp: string, fails: set<string>, l: Local)
    requires l in stale
    requires "." + l.raw !in fails && [l.decoded + "-" + stamp, "." + l.raw] !in a.kept
    ensures "." + l.raw !in MoveAll(a, stale, stamp, fails).dirs
    decreases |stale|
  {
    var dir := "." + l.raw;
    var b := Move(a, stale[0], stamp, fails);
    MovesConserve(b, stale[1..], stamp, fails);
    assert [l.decoded + "-" + stamp] + [dir] == [l.decoded + "-" + stamp, dir];
    if dir in b.dirs && l != stale[0] {
      if b != a {
        var dst := Destination(a.kept.Keys, stale[0], stamp).value;
        assert |dst| == 1 || dst[1] == "." + stale[0].raw;
        assert "." + stale[0].raw != dir;
      }
      MoveAllMoves(b, stale[1..], stamp, fails, l);
    }
  }

  // ---- Where stale folders end up -------------------------------------------------------

  /** Where a folder is kept when that place is free. */
  function OwnPlace(decoded: string, stamp: string): Path { [decoded + "-" + stamp] }

  /** Where it is kept when the place is taken. */
  function InnerPlace(decoded: string, stamp: string, dir: string): Path { [decoded + "-" + stamp, dir] }

  lemma OwnPlacesDiffer(x: string, y: string, stamp: string)
    requires OwnPlace(x, stamp) == OwnPlace(y, stamp)
    ensures x == y
  {
    assert x + "-" + stamp == y + "-" + stamp;
    assert x == (x + "-" + stamp)[..|x|] && y == (y + "-" + stamp)[..|y|];
  }

  /** A move of another folder leaves this one's directory and places alone, except that it
      may take the own place of its name. */
  lemma OtherMove<F(!new)>(a: Area<F>, other: Local, stamp: string, fails: set<string>, l: Local)
    requires other.raw != l.raw
    ensures var b := Move(a, other, stamp, fails);
            var dir := "." + l.raw;
            && (dir in a.dirs <==> dir in b.dirs) && (dir in a.dirs ==> b.dirs[dir] == a.dirs[dir])
            && (InnerPlace(l.decoded, stamp, dir) in b.kept <==> InnerPlace(l.decoded, stamp, dir) in a.kept)
            && (OwnPlace(l.decoded, stamp) in a.kept ==> OwnPlace(l.decoded, stamp) in b.kept)
            && (OwnPlace(l.decoded, stamp) in b.kept && OwnPlace(l.decoded, stamp) !in a.kept ==>
                  other.decoded == l.decoded && "." + other.raw in a.dirs && "." + other.raw !in fails)
  {
    assert ("." + other.raw)[1..] == other.raw && ("." + l.raw)[1..] == l.raw;
    if OwnPlace(l.decoded, stamp) == OwnPlace(other.decoded, stamp) {
      OwnPlacesDiffer(l.decoded, other.decoded, stamp);
    }
    assert InnerPlace(l.decoded, stamp, "." + l.raw)[1] == "." + l.raw;
  }

  /** The folder can be moved. */
  ghost predicate Movable<F(!new)>(a: Area<F>, l: Local, fails: set<string>) { "." + l.raw in a.dirs && "." + l.raw !in fails }

  /** The first of a name, in the order of the listing, gets the own place. */
  lemma {:induction false} FirstOfName<F(!new)>(a: Area<F>, stale: seq<Local>, stamp: string, fails: set<string>, i: nat)
    requires i < |stale| && Movable(a, stale[i], fails) && OwnPlace(stale[i].decoded, stamp) !in a.kept
    requires forall j :: 0 <= j < i ==> stale[j].raw != stale[i].raw
    requires forall j :: 0 <= j < i && stale[j].decoded == stale[i].decoded ==> !Movable(a, stale[j], fails)
    ensures var b, p := MoveAll(a, stale, stamp, fails), OwnPlace(stale[i].decoded, stamp);
            p in b.kept && b.kept[p] == a.dirs["." + stale[i].raw]
    decreases |stale|
  {
    var b, rest := Move(a, stale[0], stamp, fails), stale[1..];
    if i == 0 {
      MovesConserve(b, rest, stamp, fails);
    } else {
      OtherMove(a, stale[0], stamp, fails, stale[i]);
      forall j | 0 <= j < i - 1 && rest[j].decoded == rest[i - 1].decoded ensures !Movable(b, rest[j], fails) {
        assert !Movable(a, stale[j + 1], fails);
      }
      FirstOfName(b, rest, stamp, fails, i - 1);
    }
  }

  /** A folder whose own place is taken goes inside it, under its directory name; it stays
      where it is when that place is taken too. */
  lemma {:induction false} OwnPlaceTaken<F(!new)>(a: Area<F>, stale: seq<Local>, stamp: string, fails: set<string>, i: nat)
    requires i < |stale| && Movable(a, stale[i], fails) && OwnPlace(stale[i].decoded, stamp) in a.kept
    requires forall j :: 0 <= j < i ==> stale[j].raw != stale[i].raw
    ensures var b, dir := MoveAll(a, stale, stamp, fails), "." + stale[i].raw;
            var p := InnerPlace(stale[i].decoded, stamp, dir);
            p !in a.kept ==> p in b.kept && b.kept[p] == a.dirs[dir]
    decreases |stale|
  {
    var b, rest := Move(a, stale[0], stamp, fails), stale[1..];
    if i == 0 {
      MovesConserve(b, rest, stamp, fails);
      assert OwnPlace(stale[0].decoded, stamp) + ["." + stale[0].raw]
          == InnerPlace(stale[0].decoded, stamp, "." + stale[0].raw);
    } else {
      OtherMove(a, stale[0], stamp, fails, stale[i]);
      OwnPlaceTaken(b, rest, stamp, fails, i - 1);
    }
  }

  /** A later one of a name goes inside the own place, which an earlier one has taken. */
  lemma {:induction false} LaterOfName<F(!new)>(a: Area<F>, stale: seq<Local>, stamp: string, fails: set<string>, i: nat, k: nat)
    requires k < i < |stale| && Movable(a, stale[i], fails) && Movable(a, stale[k], fails)
    requires stale[k].decoded == stale[i].decoded && forall j :: 0 <= j < i ==> stale[j].raw != stale[i].raw
    requires forall j :: 0 <= j < k ==> stale[j].raw != stale[k].raw
    ensures var b, dir := MoveAll(a, stale, stamp, fails), "." + stale[i].raw;
            var p := InnerPlace(stale[i].decoded, stamp, dir);
            p !in a.kept ==> p in b.kept && b.kept[p] == a.dirs[dir]
    decreases |stale|
  {
    if OwnPlace(stale[i].decoded, stamp) in a.kept {
      OwnPlaceTaken(a, stale, stamp, fails, i);
    } else {
      var b, rest := Move(a, stale[0], stamp, fails), stale[1..];
      OtherMove(a, stale[0], stamp, fails, stale[i]);
      if k == 0 {
        OwnPlaceTaken(b, rest, stamp, fails, i - 1);
      } else {
        OtherMove(a, stale[0], stamp, fails, stale[k]);
        LaterOfName(b, rest, stamp, fails, i - 1, k - 1);
      }
    }
  }

  lemma {:induction false} BothPlacesTaken<F(!new)>(a: Area<F>, stale: seq<Local>, stamp: string, fails: set<string>, l: Local)
    requires forall m :: m in stale && m.raw == l.raw ==> m == l
    requires OwnPlace(l.decoded, stamp) in a.kept && InnerPlace(l.decoded, stamp, "." + l.raw) in a.kept
    ensures var b, dir := MoveAll(a, stale, stamp, fails), "." + l.raw;
            dir in a.dirs ==> dir in b.dirs && b.dirs[dir] == a.dirs[dir]
    decreases |stale|
  {
    if stale != [] {
      var b := Move(a, stale[0], stamp, fails);
      assert stale[0] in stale;
      if stale[0].raw == l.raw {
        assert OwnPlace(l.decoded, stamp) + ["." + l.raw] == InnerPlace(l.decoded, stamp, "." + l.raw);
      } else {
        OtherMove(a, stale[0], stamp, fails, l);
      }
      BothPlacesTaken(b, stale[1..], stamp, fails, l);
    }
  }

  /** `d` and `e` are stale folders of the same name that can be moved. */
  ghost predicate SameName<F(!new)>(a: Area<F>, listing: seq<Found>, far: set<string>, fails: set<string>, d: string, e: string) {
    && ToMove(a, listing, far, fails, d) && ToMove(a, listing, far, fails, e)
    && Utf7.Decode(d[1..]).value == Utf7.Decode(e[1..]).value
  }

  ghost predicate ToMove<F(!new)>(a: Area<F>, listing: seq<Found>, far: set<string>, fails: set<string>, d: string) {
    IsStale(d, far) && d in a.dirs && d !in fails && Found(d, true) in listing
  }

  /** Its place among the stale ones: the first entry for this directory. */
  lemma StaleIndex<F(!new)>(a: Area<F>, listing: seq<Found>, far: set<string>, fails: set<string>, d: string) returns (i: nat)
    requires LocalFolders(listing).Ok? && ToMove(a, listing, far, fails, d)
    ensures var stale := Stale(LocalFolders(listing).value, far);
            && i < |stale| && stale[i] == Local(Utf7.Decode(d[1..]).value, d[1..]) && "." + stale[i].raw == d
            && Movable(a, stale[i], fails)
            && (forall j :: 0 <= j < i ==> stale[j].raw != stale[i].raw)
            && (forall l :: l in stale ==> Utf7.Decode(l.raw) == Ok(l.decoded))
            && (forall l :: l in stale && Movable(a, l, fails) ==> ToMove(a, listing, far, fails, "." + l.raw))
  {
    var local := LocalFolders(listing).value;
    var stale := Stale(local, far);
    LocalFoldersExact(listing);
    StaleExact(local, far);
    i := Find(stale, Local(Utf7.Decode(d[1..]).value, d[1..])).value;
    assert "." + d[1..] == d;
    forall j | 0 <= j < i ensures stale[j].raw != stale[i].raw {
      assert stale[j] in stale && stale[j] == stale[..i][j];
    }
    forall l | l in stale && Movable(a, l, fails) ensures ToMove(a, listing, far, fails, "." + l.raw) {
      assert ("." + l.raw)[1..] == l.raw;
    }
  }

  /** Where a stale folder that can be moved ends up. A free place of its own, or the place
      inside it under its directory name when the own one is taken; it only stays when both
      are taken. Of several with one name the first goes to the own place, the others inside. */
  lemma StaleFolderPlaced<F(!new)>(
    a: Area<F>, listing: seq<Found>, far: set<string>, stamp: string, fails: set<string>, d: string)
    requires Quarantine(a, listing, far, stamp, fails).Ok? && ToMove(a, listing, far, fails, d)
    ensures var b := Quarantine(a, listing, far, stamp, fails).value;
            var name := Utf7.Decode(d[1..]).value;
            var own, inner := [name + "-" + stamp], [name + "-" + stamp, d];
            && (own !in a.kept && (forall e :: SameName(a, listing, far, fails, d, e) ==> e == d) ==>
                  own in b.kept && b.kept[own] == a.dirs[d])
            && (own in a.kept && inner !in a.kept ==> inner in b.kept && b.kept[inner] == a.dirs[d])
            && (own in a.kept && inner in a.kept ==> d in b.dirs && b.dirs[d] == a.dirs[d])
            && (own !in a.kept && inner !in a.kept ==>
                  || (own in b.kept && b.kept[own] == a.dirs[d])
                  || (inner in b.kept && b.kept[inner] == a.dirs[d]))
            && (own !in a.kept ==>
                  exists e :: SameName(a, listing, far, fails, d, e) && own in b.kept && b.kept[own] == a.dirs[e])
  {
    var stale := Stale(LocalFolders(listing).value, far);
    var i := StaleIndex(a, listing, far, fails, d);
    assert OwnPlace(stale[i].decoded, stamp) == [stale[i].decoded + "-" + stamp];
    if OwnPlace(stale[i].decoded, stamp) in a.kept {
      OwnPlaceTaken(a, stale, stamp, fails, i);
      if InnerPlace(stale[i].decoded, stamp, d) in a.kept {
        forall m | m in stale && m.raw == stale[i].raw ensures m == stale[i] {
        }
        BothPlacesTaken(a, stale, stamp, fails, stale[i]);
      }
    } else {
      var k := FirstMovable(a, stale, fails, i);
      var e := "." + stale[k].raw;
      assert e[1..] == stale[k].raw && stale[k] in stale;
      assert SameName(a, listing, far, fails, d, e);
      forall j | 0 <= j < k ensures stale[j].raw != stale[k].raw {
        assert stale[j] in stale;
      }
      FirstOfName(a, stale, stamp, fails, k);
      if k < i {
        LaterOfName(a, stale, stamp, fails, i, k);
      }
    }
  }

  lemma FirstMovable<F(!new)>(a: Area<F>, stale: seq<Local>, fails: set<string>, i: nat) returns (k: nat)
    requires i < |stale| && Movable(a, stale[i], fails)
    ensures k <= i && stale[k].decoded == stale[i].decoded && Movable(a, stale[k], fails)
    ensures forall j :: 0 <= j < k && stale[j].decoded == stale[i].decoded ==> !Movable(a, stale[j], fails)
  {
    k := 0;
    while stale[k].decoded != stale[i].decoded || !Movable(a, stale[k], fails)
      invariant k <= i
      invariant forall j :: 0 <= j < k && stale[j].decoded == stale[i].decoded ==> !Movable(a, stale[j], fails)
      decreases i - k
    {
      k := k + 1;
    }
  }

  /** The goal: when every move succeeds, each subfolder left decodes to a name the
      far side lists, or to INBOX. */
  lemma QuarantineReachesGoal<F(!new)>(a: Area<F>, listing: seq<Found>, far: set<string>, stamp: string, fails: set<string>)
    requires Quarantine(a, listing, far, stamp, fails).Ok?
    requires forall d :: d in a.dirs ==> Found(d, true) in listing
    ensures var b := Quarantine(a, listing, far, stamp, fails).value;
            forall d :: d in b.dirs && IsSubfolder(d) ==>
              Utf7.Decode(d[1..]).Ok? && (
                || Utf7.Decode(d[1..]).value in far + {"INBOX"}
                || d in fails
                || [Utf7.Decode(d[1..]).value + "-" + stamp, d] in a.kept)
  {
    var local := LocalFolders(listing).value;
    var stale := Stale(local, far);
    LocalFoldersExact(listing);
    StaleExact(local, far);
    MovesConserve(a, stale, stamp, fails);
    forall d | d in MoveAll(a, stale, stamp, fails).dirs && IsSubfolder(d)
      ensures Utf7.Decode(d[1..]).Ok?
      ensures Utf7.Decode(d[1..]).value in far + {"INBOX"} || d in fails
              || [Utf7.Decode(d[1..]).value + "-" + stamp, d] in a.kept
    {
      var l := Local(Utf7.Decode(d[1..]).value, d[1..]);
      assert "." + l.raw == d;
      if l.decoded !in far + {"INBOX"} && d !in fails && [l.decoded + "-" + stamp, d] !in a.kept {
        MoveAllMoves(a, stale, stamp, fails, l);
      }
    }
  }

  // ---- Live folders are never called stale -----------------------------------------------

  /** The Maildir++ directory mbsync keeps for a far folder. */
  function OnDisk(name: string, sep: string): string { "." + Translate(Utf7.Encode(name), sep) }

  /** The local side decodes a name translated on disk to the far side's translated name. */
  lemma DiskNameDecodes(name: string, sep: string)
    requires sep == "" || (|sep| == 1 && Utf7.SafeSeparator(sep[0]))
    ensures Utf7.Decode(OnDisk(name, sep)[1..]) == Ok(Translate(name, sep))
  {
    assert OnDisk(name, sep)[1..] == Translate(Utf7.Encode(name), sep);
    if sep == "" {
      Utf7.RoundTrip(name);
    } else {
      assert sep == [sep[0]];
      ReplaceAllOne(name, sep[0]);
      ReplaceAllOne(Utf7.Encode(name), sep[0]);
      Separators.SeparatorCommutes(sep[0]);
      assert Separators.Commutes(name, sep[0]);
    }
  }

  lemma {:induction false} ListedEntry(items: seq<Item>, e: Entry, quoted: bool)
    requires Listed(e, quoted) in items
    ensures e in Entries(items)
  {
    if items[0] != Listed(e, quoted) {
      ListedEntry(items[1..], e, quoted);
    }
  }

  /** From the server's response to the disk: the local directory of a listed folder
      stays in place with its contents. */
  lemma LiveFolderStays<F(!new)>(items: seq<Item>, e: Entry, quoted: bool, a: Area<F>, listing: seq<Found>,
                                 stamp: string, fails: set<string>)
    requires forall item :: item in items ==> Legal(item)
    requires Listed(e, quoted) in items
    requires e.sep == "" || Utf7.SafeSeparator(e.sep[0])
    requires OnDisk(e.name, e.sep) in a.dirs
    ensures FarSide(Lines(items)).Ok?
    ensures var r := Quarantine(a, listing, FarSide(Lines(items)).value, stamp, fails);
            r.Ok? ==> var dir := OnDisk(e.name, e.sep); dir in r.value.dirs && r.value.dirs[dir] == a.dirs[dir]
  {
    ListRoundTrip(items);
    ListedEntry(items, e, quoted);
    assert Legal(Listed(e, quoted));
    var far := FarSide(Lines(items)).value;
    assert Translate(e.name, e.sep) in far;
    DiskNameDecodes(e.name, e.sep);
    if Quarantine(a, listing, far, stamp, fails).Ok? {
      QuarantineConserves(a, listing, far, stamp, fails);
    }
  }

  /** A subfolder on its own is moved when its name is not on the far side. */
  lemma LoneFolderMoves<F(!new)>(dir: string, content: F, far: set<string>, stamp: string)
    requires IsStale(dir, far)
    ensures var r := Quarantine(Area(map[dir := content], map[]), [Found(dir, true)], far, stamp, {});
            r.Ok? && dir !in r.value.dirs
  {
    var listing := [Found(dir, true)];
    assert listing[1..] == [] && LocalFolders([]) == Ok([]);
    var a := Area(map[dir := content], map[]);
    assert Quarantine(a, listing, far, stamp, {}).Ok?;
    QuarantineReachesGoal(a, listing, far, stamp, {});
  }

  lemma DashOnDisk(name: string)
    requires name == [Separators.Witness(0)]
    ensures OnDisk(name, "-")[1..] == "&QAA." && Translate(name, "-") == name
    ensures Utf7.Decode(OnDisk(name, "-")[1..]) == Ok("&QAA.")
  {
    Separators.WitnessRun(0);
    ReplaceAllOne(Utf7.Encode(name), '-');
    ReplaceAllOne(name, '-');
    var s := OnDisk(name, "-")[1..];
    assert s == "&QAA.";
    assert Find(s, '-') == None;
  }

  /** With an unsafe separator a live folder is moved away: the dash ends a shifted
      run, so translating it hides the run from the local decoder. */
  lemma DashSeparatorMovesLiveFolder<F(!new)>(content: F, stamp: string)
    ensures var e := Entry([Separators.Witness(0)], [], "-");
            var dir := OnDisk(e.name, e.sep);
            var r := Quarantine(Area(map[dir := content], map[]), [Found(dir, true)], FarNames([e]), stamp, {});
            WellFormed(e) && r.Ok? && dir !in r.value.dirs
  {
    var e := Entry([Separators.Witness(0)], [], "-");
    FarNamesAppend([], e);
    assert [] + [e] == [e];
    DashIsStale(e.name, FarNames([e]));
    LoneFolderMoves(OnDisk(e.name, "-"), content, FarNames([e]), stamp);
  }

  lemma DashIsStale(name: string, far: set<string>)
    requires name == [Separators.Witness(0)] && far == {Translate(name, "-")}
    ensures IsStale(OnDisk(name, "-"), far)
  {
    DashOnDisk(name);
    var x := "&QAA.";
    assert |x| == 5 && x[0] == '&' && "INBOX"[0] == 'I' && |name| == 1;
  }

  // ---- Exactly the safe separators keep every folder -----------------------------------------

  /** The lone folder `name` of a server with separator `c` is not moved away. */
  ghost predicate Kept<F(!new)>(name: string, c: char, content: F, stamp: string) {
    var dir := OnDisk(name, [c]);
    var r := Quarantine(Area(map[dir := content], map[]), [Found(dir, true)], {Translate(name, [c])}, stamp, {});
    r.Ok? ==> dir in r.value.dirs
  }

  lemma OnDiskOne(name: string, c: char)
    ensures OnDisk(name, [c])[1..] == ReplaceChar(Utf7.Encode(name), c, '.')
    ensures Translate(name, [c]) == ReplaceChar(name, c, '.')
  {
    ReplaceAllOne(name, c);
    ReplaceAllOne(Utf7.Encode(name), c);
  }

  lemma UnprintableMoves(c: char)
    requires !Utf7.Printable(c)
    ensures IsStale(OnDisk([c], [c]), {Translate([c], [c])})
  {
    hide Utf7.Encode, Utf7.Decode;
    OnDiskOne([c], c);
    Utf7.EncodeIsPrintable([c]);
    ReplaceCharAbsent(Utf7.Encode([c]), c, '.');
    Utf7.RoundTrip([c]);
    assert Translate([c], [c])[0] == '.' && |"INBOX"| == 5;
  }

  lemma AmpersandMoves()
    ensures IsStale(OnDisk("&", ['&']), {Translate("&", ['&'])})
  {
    OnDiskOne("&", '&');
    assert ReplaceChar(Utf7.Encode("&"), '&', '.') == ['.'] + ['-'];
    Utf7.DecodeDirect('.', ['-']);
    assert ['-'] == ['-'] + [];
    Utf7.DecodeDirect('-', []);
    Utf7.DecodeNothing([]);
    assert |Utf7.Decode(['.'] + ['-']).value| == 2 && |Translate("&", ['&'])| == 1 && |"INBOX"| == 5;
  }

  lemma AlphabetMoves(c: char)
    requires Utf7.InShifted(c)
    ensures var name := Separators.Pair(Separators.SextetOf(c));
            '"' !in name && '\\' !in name && IsStale(OnDisk(name, [c]), {Translate(name, [c])})
  {
    hide Utf7.Encode, Utf7.Decode;
    var v := Separators.SextetOf(c);
    var name := Separators.Pair(v);
    OnDiskOne(name, c);
    Separators.AlphabetMisreads(v);
    assert |name| == 2 && |"INBOX"| == 5;
  }

  /** For a separator the listing can carry: every listed folder stays, whatever its name,
      iff the separator is safe. */
  lemma KeptIffSafe<F(!new)>(c: char, content: F, stamp: string)
    requires c < 128 as char && c != '"' && c != '\\'
    ensures (forall name :: WellFormed(Entry(name, [], [c])) ==> Kept(name, c, content, stamp))
            <==> Utf7.SafeSeparator(c)
  {
    hide Kept, IsStale, Utf7.InShifted;
    if Utf7.SafeSeparator(c) {
      forall name ensures Kept(name, c, content, stamp) {
        SafeKept(name, c, content, stamp);
      }
    } else {
      var name: string;
      if !Utf7.Printable(c) {
        name := [c];
        UnprintableMoves(c);
      } else if c == '&' {
        name := "&";
        AmpersandMoves();
      } else if c == '-' {
        name := [Separators.Witness(0)];
        DashIsStale(name, {Translate(name, "-")});
      } else {
        name := Separators.Pair(Separators.SextetOf(c));
        AlphabetMoves(c);
      }
      StaleNotKept(name, c, content, stamp);
      assert WellFormed(Entry(name, [], [c]));
    }
  }

  lemma SafeKept<F(!new)>(name: string, c: char, content: F, stamp: string)
    requires Utf7.SafeSeparator(c)
    ensures Kept(name, c, content, stamp)
  {
    var dir := OnDisk(name, [c]);
    var a, far := Area(map[dir := content], map[]), {Translate(name, [c])};
    DiskNameDecodes(name, [c]);
    if Quarantine(a, [Found(dir, true)], far, stamp, {}).Ok? {
      QuarantineConserves(a, [Found(dir, true)], far, stamp, {});
    }
  }

  lemma StaleNotKept<F(!new)>(name: string, c: char, content: F, stamp: string)
    requires IsStale(OnDisk(name, [c]), {Translate(name, [c])})
    ensures !Kept(name, c, content, stamp)
  {
    LoneFolderMoves(OnDisk(name, [c]), content, {Translate(name, [c])}, stamp);
  }
}
