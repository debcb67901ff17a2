/** How `app.py` names things: the display name of an audio link, taken from
    the anchor's `title` attribute, and the two files named after it once
    path characters are replaced. */
module Naming {
  import opened Wrappers
  import opened PyStr

  /** The text used when an anchor has no usable title. */
  const Placeholder := "mp3"
  /** The audio extension the scraper looks for and the audio file gets. */
  const AudioExt := ".mp3"
  /** The extension of the transcript document. */
  const DocumentExt := ".pdf"

  /** `link.get('title', '').strip() or "mp3"`: the stripped title, or the
      placeholder when that is empty. */
  function Label(title: Option<string>): (r: string)
    ensures r != []
    ensures Trimmed(r)
  {
    var stripped := Strip(title.GetOr(""));
    if stripped == [] then Placeholder else stripped
  }

  /** The display name of an anchor: its text with one trailing ".mp3"
      removed. */
  function DisplayName(title: Option<string>): (r: string)
    ensures EndsWith(Label(title), AudioExt) ==> r + AudioExt == Label(title)
    ensures !EndsWith(Label(title), AudioExt) ==> r == Label(title)
  {
    var text := Label(title);
    if EndsWith(text, AudioExt) then text[..|text| - |AudioExt|] else text
  }

  /** No title attribute, an empty one or one of only whitespace all give
      the placeholder. */
  lemma DisplayNameDefault(title: Option<string>)
    requires title.None? || AllSpace(title.value)
    ensures DisplayName(title) == Placeholder
  {
    assert !EndsWith(Placeholder, AudioExt);
  }

  /** A title with some non-whitespace gives its stripped text, less one
      ".mp3" when the stripped text ends with it. */
  lemma DisplayNameFromTitle(t: string)
    requires !AllSpace(t)
    ensures EndsWith(Strip(t), AudioExt) ==> DisplayName(Some(t)) + AudioExt == Strip(t)
    ensures !EndsWith(Strip(t), AudioExt) ==> DisplayName(Some(t)) == Strip(t)
  {
  }

  /** A title "X.mp3", with X not starting with whitespace, has display
      name X ("Episode 5.mp3" gives "Episode 5"). */
  lemma DisplayNameDropsExtension(stem: string)
    requires stem != [] && !IsSpace(stem[0])
    ensures DisplayName(Some(stem + AudioExt)) == stem
  {
    var t := stem + AudioExt;
    assert t[0] == stem[0] && t[|t| - 1] == '3';
    assert [] + t + [] == t;
    StripUnique([], t, []);
    assert t[..|stem|] == stem && t[|stem|..] == AudioExt;
  }

  lemma DisplayNameEpisodeExample()
    ensures DisplayName(Some("Episode 5.mp3")) == "Episode 5"
  {
    DisplayNameDropsExtension("Episode 5");
    assert "Episode 5" + AudioExt == "Episode 5.mp3";
  }

  /** The suffix is removed once only: a text ending in ".mp3.mp3" keeps
      one ".mp3". */
  lemma DisplayNameStripsOnce(title: Option<string>)
    requires EndsWith(Label(title), AudioExt + AudioExt)
    ensures EndsWith(DisplayName(title), AudioExt)
  {
    var text := Label(title);
    DropOneSuffix(text);
  }

  lemma DropOneSuffix(t: string)
    requires EndsWith(t, AudioExt + AudioExt)
    ensures EndsWith(t, AudioExt) && EndsWith(t[..|t| - 4], AudioExt)
  {
    var n := |t|;
    assert t[n - 8..] == ".mp3.mp3";
    assert t[n - 4..] == t[n - 8..][4..];
    assert t[..n - 4][n - 8..] == t[n - 8..][..4];
  }

  /** The display name is empty exactly when the stripped title is ".mp3". */
  lemma DisplayNameEmptyIff(title: Option<string>)
    ensures DisplayName(title) == [] <==> Label(title) == AudioExt
  {
  }

  /** The display name never starts with whitespace (it may end with some:
      "a .mp3" gives "a "). */
  lemma DisplayNameNoLeadingSpace(title: Option<string>)
    ensures DisplayName(title) == [] || !IsSpace(DisplayName(title)[0])
  {
    var text := Label(title);
    var r := DisplayName(title);
    if r != [] {
      assert r[0] == text[0];
    }
  }

  /** The characters that cannot stay in a file name: the POSIX path
      separator, the Windows path separator and the drive separator. */
  predicate IsPathChar(c: char) {
    c == '/' || c == '\\' || c == ':'
  }

  predicate HasNoPathChar(s: string) {
    forall i :: 0 <= i < |s| ==> !IsPathChar(s[i])
  }

  /** `name.replace("/", "_").replace("\\", "_").replace(":", "_")`: the
      same length, each path character replaced by '_' and every other
      character left where it was. */
  function Sanitize(name: string): (r: string)
    ensures |r| == |name|
    ensures forall i :: 0 <= i < |name| ==> r[i] == if IsPathChar(name[i]) then '_' else name[i]
    ensures HasNoPathChar(r)
  {
    ReplaceChar(ReplaceChar(ReplaceChar(name, '/', '_'), '\\', '_'), ':', '_')
  }

  /** Sanitising leaves a name alone exactly when it has no path character. */
  lemma SanitizeFixesExactlyClean(name: string)
    ensures Sanitize(name) == name <==> HasNoPathChar(name)
  {
    if Sanitize(name) == name {
      forall i | 0 <= i < |name| ensures !IsPathChar(name[i]) {
        assert Sanitize(name)[i] == name[i];
      }
    }
  }

  lemma SanitizeIdempotent(name: string)
    ensures Sanitize(Sanitize(name)) == Sanitize(name)
  {
    SanitizeFixesExactlyClean(Sanitize(name));
  }

  /** The two file names built from one display name. */
  datatype FileNames = FileNames(audio: string, document: string)

  /** `mp3_filename` and `pdf_filename` in `process_mp3s`. */
  function FileNamesFor(displayName: string): FileNames {
    var base := Sanitize(displayName);
    FileNames(base + AudioExt, base + DocumentExt)
  }

  /** Both names hold the same sanitised base, differ only in the
      extension, and contain no path character, so neither can leave the
      folder it is joined to. */
  lemma FileNamesShareBase(displayName: string)
    ensures var n := FileNamesFor(displayName);
      && |n.audio| == |n.document| == |displayName| + 4
      && n.audio[..|displayName|] == n.document[..|displayName|] == Sanitize(displayName)
      && EndsWith(n.audio, AudioExt) && EndsWith(n.document, DocumentExt)
      && n.audio != n.document
      && HasNoPathChar(n.audio) && HasNoPathChar(n.document)
  {
    var base := Sanitize(displayName);
    ExtensionsDiffer();
    WithExtension(base, AudioExt);
    WithExtension(base, DocumentExt);
  }

  lemma ExtensionsDiffer()
    ensures HasNoPathChar(AudioExt) && HasNoPathChar(DocumentExt)
    ensures |AudioExt| == |DocumentExt| == 4 && AudioExt != DocumentExt
  {
    assert AudioExt[1] != DocumentExt[1];
  }

  /** A clean base followed by a clean extension: the base comes first, the
      name ends in the extension and holds no path character. */
  lemma WithExtension(base: string, ext: string)
    requires HasNoPathChar(base) && HasNoPathChar(ext)
    ensures (base + ext)[..|base|] == base && EndsWith(base + ext, ext)
    ensures HasNoPathChar(base + ext)
  {
    var s := base + ext;
    assert s[..|base|] == base;
    assert s[|base|..] == ext;
    forall i | 0 <= i < |s| ensures !IsPathChar(s[i]) {
      if i < |base| { assert s[i] == base[i]; } else { assert s[i] == ext[i - |base|]; }
    }
  }

  /** Two display names give the same files exactly when they sanitise to
      the same base. */
  lemma FileNamesCollideIff(a: string, b: string)
    ensures FileNamesFor(a) == FileNamesFor(b) <==> Sanitize(a) == Sanitize(b)
  {
    if FileNamesFor(a) == FileNamesFor(b) {
      var x, y := FileNamesFor(a).audio, FileNamesFor(b).audio;
      assert x[..|x| - 4] == Sanitize(a);
      assert y[..|y| - 4] == Sanitize(b);
    }
  }

  /** Distinct titles can therefore share files: "a/b" and "a:b" both
      become "a_b.mp3" and "a_b.pdf". */
  lemma FileNamesCollisionExample()
    ensures DisplayName(Some("a/b")) != DisplayName(Some("a:b"))
    ensures FileNamesFor(DisplayName(Some("a/b"))) == FileNames("a_b.mp3", "a_b.pdf")
    ensures FileNamesFor(DisplayName(Some("a:b"))) == FileNames("a_b.mp3", "a_b.pdf")
  {
    FileNamesOfSeparatedTitle('/');
    FileNamesOfSeparatedTitle(':');
  }

  lemma FileNamesOfSeparatedTitle(c: char)
    requires IsPathChar(c)
    ensures DisplayName(Some(['a', c, 'b'])) == ['a', c, 'b']
    ensures FileNamesFor(DisplayName(Some(['a', c, 'b']))) == FileNames("a_b.mp3", "a_b.pdf")
  {
    DisplayNameOfTrimmed(['a', c, 'b']);
    SanitizeReplacesMiddle('a', c, 'b');
  }

  lemma SanitizeReplacesMiddle(x: char, c: char, y: char)
    requires IsPathChar(c) && !IsPathChar(x) && !IsPathChar(y)
    ensures Sanitize([x, c, y]) == [x, '_', y]
  {
    var r := Sanitize([x, c, y]);
    assert r[0] == x && r[1] == '_' && r[2] == y;
  }

  /** A title that is already trimmed and has no ".mp3" suffix is its own
      display name. */
  lemma DisplayNameOfTrimmed(t: string)
    requires t != [] && Trimmed(t) && !EndsWith(t, AudioExt)
    ensures DisplayName(Some(t)) == t
  {
    assert [] + t + [] == t;
    StripUnique([], t, []);
  }
}
