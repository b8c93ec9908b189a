/** Which source paths are audited presentation code and stay out of the fingerprint
    (build_support/source_ingest_contract.rs). */
module PresentationRules {
  import opened Framing
  import opened Sorting
  import opened TreeWalk

  const SRC := Ascii("src")
  const ROOTS: seq<Bytes> := [SRC, Ascii("build_support")]

  const DIRECTORY_NAMES: seq<string> := ["ui", "html_export", "pages_assets"]
  const FILE_NAMES: seq<string> :=
    ["doctor_robot_docs.rs", "recipes_robot_docs.rs", "tui_asciicast.rs", "ftui_harness.rs"]

  /** `src/name` for each of the names. */
  function InSource(names: seq<string>): (r: seq<Path>)
    ensures |r| == |names| && forall i | 0 <= i < |names| :: r[i] == [SRC, Ascii(names[i])]
  {
    seq(|names|, i requires 0 <= i < |names| => [SRC, Ascii(names[i])])
  }

  const PRESENTATION_DIRECTORIES: seq<Path> := InSource(DIRECTORY_NAMES)
  const PRESENTATION_FILES: seq<Path> := InSource(FILE_NAMES)

  function PresentationOnly(): Path -> bool {
    SkipListed(PRESENTATION_DIRECTORIES, PRESENTATION_FILES)
  }

  lemma PresentationListsSeparate()
    ensures SeparateLists(PRESENTATION_DIRECTORIES, PRESENTATION_FILES, ROOTS)
  {
    assert forall i | 0 <= i < |DIRECTORY_NAMES| :: |DIRECTORY_NAMES[i]| < 13;
    assert forall i | 0 <= i < |FILE_NAMES| :: |FILE_NAMES[i]| > 13;
    SeparateNames(DIRECTORY_NAMES, FILE_NAMES);
  }

  lemma SeparateNames(directories: seq<string>, files: seq<string>)
    requires forall i | 0 <= i < |directories| :: |directories[i]| < 13
    requires forall i | 0 <= i < |files| :: |files[i]| > 13
    ensures SeparateLists(InSource(directories), InSource(files), ROOTS)
  {
    forall d, f | d in InSource(directories) && f in InSource(files) ensures !(d <= f) && !(f <= d) {
      assert |d| == 2 && |f| == 2 && |d[1]| != |f[1]|;
    }
    assert ROOTS[0] == SRC;
  }

  /** The intended inputs: the mandatory files and every non-directory below `src` and
      `build_support` that is not presentation-only. They are what the walk collects, exactly when
      no presentation file name is a directory holding other files. */
  lemma InputsAreIntended(fs: Tree)
    ensures FilesAreFiles(PRESENTATION_FILES, fs) <==>
      ReachedFiles(PresentationOnly(), ROOTS, fs) == KeptFiles(PRESENTATION_DIRECTORIES, PRESENTATION_FILES, ROOTS, fs)
  {
    PresentationListsSeparate();
    PruningIsExact(PRESENTATION_DIRECTORIES, PRESENTATION_FILES, ROOTS, fs);
  }

  /** Anything below a name that is too long to be a presentation directory is not listed. */
  lemma BelowLongNameIsKept(directories: seq<string>, files: seq<string>, name: Bytes, file: Bytes)
    requires forall i | 0 <= i < |directories| :: |directories[i]| < 13
    requires |name| > 13
    ensures !Listed(InSource(directories), InSource(files), [SRC, name, file])
  {
    forall i | 0 <= i < |directories| ensures !(InSource(directories)[i] <= [SRC, name, file]) {
      assert InSource(directories)[i][1] == Ascii(directories[i]);
    }
    forall i | 0 <= i < |files| ensures InSource(files)[i] != [SRC, name, file] {
      assert |InSource(files)[i]| == 2;
    }
  }

  /** In a project where `src/tui_asciicast.rs` is a directory holding one file, the walk drops that
      file although no list names it. */
  lemma FileAsDirectoryIsDropped(file: Bytes, content: Bytes)
    ensures var name := Ascii("tui_asciicast.rs");
      var fs := NestedFile(SRC, name, file, content);
      && Rooted(fs)
      && [SRC, name, file] in KeptFiles(PRESENTATION_DIRECTORIES, PRESENTATION_FILES, ROOTS, fs)
      && [SRC, name, file] !in ReachedFiles(PresentationOnly(), ROOTS, fs)
  {
    var name := Ascii(FILE_NAMES[2]);
    assert PRESENTATION_FILES[2] == [SRC, name] && ROOTS[0] == SRC;
    BelowLongNameIsKept(DIRECTORY_NAMES, FILE_NAMES, name, file);
    NestedFileIsDropped(PRESENTATION_DIRECTORIES, PRESENTATION_FILES, ROOTS, SRC, name, file, content);
  }

  lemma RootsDistinct()
    ensures Distinct(ROOTS)
  {
    assert |ROOTS[0]| != |ROOTS[1]|;
  }
}
