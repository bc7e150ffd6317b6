/** Which song the tools work on, and where its files live: the song id comes
    from the `SONG` environment variable, and each song has a reference
    directory, a user directory and an export directory under the app's
    analysis directory. The bundled sample song keeps the older flat layout. */
module SongPaths {
  import opened Text

  /** The environment variable naming the song, and the song used when it is unset or blank. */
  const SongVariable: string := "SONG"
  const SampleSong: string := "sample01"

  /** `get_song_id(default)` in the environment `env`: the variable's value
      (or the default) stripped, and the default when that leaves nothing. */
  function SongId(env: map<string, string>, default: string): (id: string)
    ensures id == default || (|id| > 0 && Strip(id) == id)
  {
    var value := if SongVariable in env then env[SongVariable] else default;
    var stripped := Strip(value);
    StripIdempotent(value);
    if |stripped| > 0 then stripped else default
  }

  /** A song named with text around it is the song named by that text. */
  lemma SongIdStrips(env: map<string, string>, default: string)
    requires SongVariable in env && |Strip(env[SongVariable])| > 0
    ensures SongId(env, default) == Strip(env[SongVariable])
    ensures forall e: map<string, string> :: SongVariable in e && Strip(e[SongVariable]) == Strip(env[SongVariable]) ==> SongId(e, default) == SongId(env, default)
  {
  }

  /** An empty or all-blank `SONG` gives the default, unstripped. */
  lemma SongIdBlank(env: map<string, string>, default: string)
    requires SongVariable in env
    requires forall i :: 0 <= i < |env[SongVariable]| ==> IsSpace(env[SongVariable][i])
    ensures SongId(env, default) == default
  {
    StripEmpty(env[SongVariable]);
  }

  /** Setting `SONG` to the id it chose chooses it again, when the default has no blanks around it. */
  lemma SongIdStable(env: map<string, string>, default: string)
    requires Strip(default) == default
    ensures SongId(env[SongVariable := SongId(env, default)], default) == SongId(env, default)
  {
    var id := SongId(env, default);
    var again := env[SongVariable := id];
    assert SongVariable in again && again[SongVariable] == id;
    SongIdOf(again, default, id);
    StripIdempotent(id);
  }

  /** The id chosen when `SONG` is set to `v`. */
  lemma SongIdOf(env: map<string, string>, default: string, v: string)
    requires SongVariable in env && env[SongVariable] == v
    ensures SongId(env, default) == (if |Strip(v)| > 0 then Strip(v) else default)
  {
  }

  /** A file-system path as pathlib holds it: absolute or not, and its parts. */
  datatype Path = Path(absolute: bool, parts: seq<string>)

  /** The parts pathlib keeps of the pieces of a name split at `/`: empty and `.` pieces go. */
  function KeptSegments(pieces: seq<string>): (r: seq<string>)
    ensures |r| <= |pieces|
    ensures forall i :: 0 <= i < |r| ==> r[i] != "" && r[i] != "."
  {
    if |pieces| == 0 then []
    else (if pieces[0] == "" || pieces[0] == "." then [] else [pieces[0]]) + KeptSegments(pieces[1..])
  }

  function Segments(name: string): seq<string> {
    KeptSegments(Split(name, "/"))
  }

  /** `p / name` for a name from outside: one starting with `/` replaces the
      path, any other adds its parts. */
  function Child(p: Path, name: string): Path {
    if |name| > 0 && name[0] == '/' then Path(true, Segments(name))
    else Path(p.absolute, p.parts + Segments(name))
  }

  /** `p / name` for the fixed names of the layout, each one part. */
  function Sub(p: Path, part: string): Path {
    Path(p.absolute, p.parts + [part])
  }

  /** A name that pathlib keeps as one part. */
  predicate PlainName(name: string) {
    |name| > 0 && Lacks(name, '/') && name != "."
  }

  /** A plain name adds exactly itself. */
  lemma ChildPlain(p: Path, name: string)
    requires PlainName(name)
    ensures Child(p, name) == Sub(p, name)
  {
    SplitWhole(name, "/");
    assert Split(name, "/")[1..] == [];
  }

  /** `p` is `q` or lies inside it. */
  predicate Under(p: Path, q: Path) {
    p.absolute == q.absolute && |q.parts| <= |p.parts| && p.parts[..|q.parts|] == q.parts
  }

  /** Paths that differ in a part both have are not inside one another. */
  lemma DifferAt(d: Path, e: Path, k: nat)
    requires k < |d.parts| && k < |e.parts| && d.parts[k] != e.parts[k]
    ensures !Under(d, e) && !Under(e, d)
  {
    if |e.parts| <= |d.parts| {
      assert d.parts[..|e.parts|][k] == d.parts[k];
    }
    if |d.parts| <= |e.parts| {
      assert e.parts[..|d.parts|][k] == e.parts[k];
    }
  }

  /** The standard files of a song, the keys of the `files` entry. */
  datatype RefFile = RefPitch | RefLyricsInput | RefLyrics

  function RefFileKey(f: RefFile): string {
    match f
    case RefPitch => "ref_pitch"
    case RefLyricsInput => "ref_lyrics_input"
    case RefLyrics => "ref_lyrics"
  }

  function RefFileName(f: RefFile): string {
    match f
    case RefPitch => "pitch.json"
    case RefLyricsInput => "lyrics_input.txt"
    case RefLyrics => "lyrics.json"
  }

  /** The directories `paths(song)` lays out. */
  datatype Layout = Layout(root: Path, ana: Path, base: Path, ref: Path, user: Path, exportDir: Path)

  /** The analysis directory of the checkout at `root`. */
  function AnalysisDir(root: Path): Path {
    Sub(Sub(root, "SingingApp"), "analysis")
  }

  /** `paths(song)` for the checkout at `root` (the first parent of the tools directory). */
  function SongLayout(root: Path, song: string): (l: Layout)
    ensures l.root == root && l.ana == AnalysisDir(root)
    ensures l.exportDir == Sub(l.base, "export")
    ensures l.ref == l.base <==> song == SampleSong
  {
    var ana := AnalysisDir(root);
    if song == SampleSong then
      var base := Sub(ana, "sample01");
      Layout(root, ana, base, base, Sub(ana, "user01"), Sub(base, "export"))
    else
      var base := Child(Sub(ana, "songs"), song);
      var ref := Sub(base, "ref");
      assert |ref.parts| != |base.parts|;
      Layout(root, ana, base, ref, Sub(base, "user"), Sub(base, "export"))
  }

  /** Where each standard file of the layout lives. */
  function RefFilePath(l: Layout, f: RefFile): Path {
    Sub(l.ref, RefFileName(f))
  }

  /** The keys of the dictionary `paths` returns: the lower-case ones and their upper-case aliases. */
  datatype Key = RootKey | AnaKey | BaseKey | RefKey | UserKey | ExportKey | FilesKey
               | BaseAlias | RefAlias | UserAlias | ExportAlias

  function KeyName(k: Key): string {
    match k
    case RootKey => "ROOT"
    case AnaKey => "ANA"
    case BaseKey => "base"
    case RefKey => "ref"
    case UserKey => "user"
    case ExportKey => "export"
    case FilesKey => "files"
    case BaseAlias => "BASE"
    case RefAlias => "REF"
    case UserAlias => "USER"
    case ExportAlias => "EXPORT"
  }

  /** The lower-case key an alias stands for. */
  function AliasOf(k: Key): Key {
    match k
    case BaseAlias => BaseKey
    case RefAlias => RefKey
    case UserAlias => UserKey
    case ExportAlias => ExportKey
    case _ => k
  }

  /** An entry of the dictionary: a directory, or the standard files. */
  datatype Entry = Dir(path: Path) | Files(pitch: Path, lyricsInput: Path, lyrics: Path)

  /** `paths(song)[k]`. */
  function Paths(root: Path, song: string, k: Key): Entry {
    var l := SongLayout(root, song);
    match k
    case RootKey => Dir(l.root)
    case AnaKey => Dir(l.ana)
    case BaseKey => Dir(l.base)
    case RefKey => Dir(l.ref)
    case UserKey => Dir(l.user)
    case ExportKey => Dir(l.exportDir)
    case FilesKey => Files(RefFilePath(l, RefPitch), RefFilePath(l, RefLyricsInput), RefFilePath(l, RefLyrics))
    case BaseAlias => Dir(l.base)
    case RefAlias => Dir(l.ref)
    case UserAlias => Dir(l.user)
    case ExportAlias => Dir(l.exportDir)
  }

  /** Every upper-case alias names the same entry as its lower-case key, and
      the upper-case keys are the lower-case ones written in capitals. */
  lemma PathsAliases(root: Path, song: string, k: Key)
    ensures Paths(root, song, k) == Paths(root, song, AliasOf(k))
    ensures AliasOf(k) != k ==> |KeyName(k)| == |KeyName(AliasOf(k))|
    ensures Paths(root, song, AnaKey) == Dir(AnalysisDir(root))
  {
  }

  /** The files are the same three names in the reference directory for every song. */
  lemma FilesInRef(root: Path, song: string, f: RefFile)
    ensures Under(RefFilePath(SongLayout(root, song), f), SongLayout(root, song).ref)
    ensures RefFilePath(SongLayout(root, song), f).parts == SongLayout(root, song).ref.parts + [RefFileName(f)]
  {
    var r := SongLayout(root, song).ref;
    assert (r.parts + [RefFileName(f)])[..|r.parts|] == r.parts;
  }

  /** The sample song: its reference data sits directly in `analysis/sample01`,
      and its user data in `analysis/user01`. */
  lemma SampleLayout(root: Path)
    ensures SongLayout(root, SampleSong).base == Sub(AnalysisDir(root), "sample01")
    ensures SongLayout(root, SampleSong).ref == SongLayout(root, SampleSong).base
    ensures SongLayout(root, SampleSong).user == Sub(AnalysisDir(root), "user01")
  {
  }

  /** Any other song: everything under `analysis/songs/<song>`, in `ref`, `user` and `export`. */
  lemma OtherLayout(root: Path, song: string)
    requires song != SampleSong
    ensures SongLayout(root, song).base == Child(Sub(AnalysisDir(root), "songs"), song)
    ensures SongLayout(root, song).ref == Sub(SongLayout(root, song).base, "ref")
    ensures SongLayout(root, song).user == Sub(SongLayout(root, song).base, "user")
  {
  }

  /** The directories `paths` names. */
  function Dirs(l: Layout): seq<Path> {
    [l.base, l.ref, l.user, l.exportDir]
  }

  /** `d` lies below `ana` in the part of it that belongs to `song`: the
      sample's directories start with `sample01` or `user01` there, any other
      song's with `songs/<song>`. */
  predicate LeadsWith(d: Path, ana: Path, song: string) {
    var n := |ana.parts|;
    d.absolute == ana.absolute && n < |d.parts| && d.parts[..n] == ana.parts
    && (if song == SampleSong then d.parts[n] == "sample01" || d.parts[n] == "user01"
        else n + 1 < |d.parts| && d.parts[n] == "songs" && d.parts[n + 1] == song)
  }

  /** Every directory of a plainly named song lies below the analysis
      directory, in the part that belongs to the song. */
  lemma DirsBelow(root: Path, song: string)
    requires PlainName(song)
    ensures forall i :: 0 <= i < 4 ==> LeadsWith(Dirs(SongLayout(root, song))[i], AnalysisDir(root), song)
  {
    var ana := AnalysisDir(root);
    var l := SongLayout(root, song);
    if song != SampleSong {
      ChildPlain(Sub(ana, "songs"), song);
    }
    forall i | 0 <= i < 4
      ensures LeadsWith(Dirs(l)[i], ana, song)
    {
      SubBelow(ana, Dirs(l)[i], song);
    }
  }

  /** A directory whose parts continue those of `ana` with the song's own leading parts. */
  lemma SubBelow(ana: Path, d: Path, song: string)
    requires d.absolute == ana.absolute
    requires song == SampleSong ==> exists x :: x in ["sample01", "user01"] && |ana.parts + [x]| <= |d.parts| && d.parts[..|ana.parts| + 1] == ana.parts + [x]
    requires song != SampleSong ==> |ana.parts + ["songs", song]| <= |d.parts| && d.parts[..|ana.parts| + 2] == ana.parts + ["songs", song]
    ensures LeadsWith(d, ana, song)
  {
  }

  /** Two different plainly named songs share no directory, and none of
      one song's directories lies inside another's. */
  lemma SongsApart(root: Path, s: string, t: string)
    requires PlainName(s) && PlainName(t) && s != t
    ensures forall i, j :: 0 <= i < 4 && 0 <= j < 4 ==> !Under(Dirs(SongLayout(root, s))[i], Dirs(SongLayout(root, t))[j])
  {
    DirsBelow(root, s);
    DirsBelow(root, t);
    var ana := AnalysisDir(root);
    forall i, j | 0 <= i < 4 && 0 <= j < 4
      ensures !Under(Dirs(SongLayout(root, s))[i], Dirs(SongLayout(root, t))[j])
    {
      Separate(Dirs(SongLayout(root, s))[i], Dirs(SongLayout(root, t))[j], ana, s, t);
    }
  }

  lemma Separate(d: Path, e: Path, ana: Path, s: string, t: string)
    requires s != t && LeadsWith(d, ana, s) && LeadsWith(e, ana, t)
    ensures !Under(d, e)
  {
    var n := |ana.parts|;
    if s == SampleSong || t == SampleSong {
      DifferAt(d, e, n);
    } else {
      DifferAt(d, e, n + 1);
    }
  }

  /** Within a plainly named song the user directory and the reference
      directory are kept apart. */
  lemma UserApartFromRef(root: Path, song: string)
    requires PlainName(song)
    ensures !Under(SongLayout(root, song).user, SongLayout(root, song).ref)
    ensures !Under(SongLayout(root, song).ref, SongLayout(root, song).user)
  {
    var ana := AnalysisDir(root);
    var l := SongLayout(root, song);
    if song == SampleSong {
      DifferAt(l.user, l.ref, |ana.parts|);
    } else {
      DifferAt(l.user, l.ref, |l.base.parts|);
    }
  }
}
