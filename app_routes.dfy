/** `process_mp3s` and the POST branch of the `index` route. Only the
    naming and the control flow are modelled: the download, the
    transcription and the PDF rendering are reduced to the paths of the
    two files each link produces. */
module AppRoutes {
  import opened PyStr
  import opened Naming
  import opened Scraper

  /** The directory all output folders live in. */
  const StaticDir := "static"

  /** The reply when the page has no ".mp3" link. */
  const NoLinksMessage := "No MP3 links found."

  /** What one link turns into: the URL fetched, the audio file written and
      the transcript document written. */
  datatype Artifact = Artifact(sourceUrl: string, audioPath: string, documentPath: string)

  /** The files `process_mp3s` writes for one link. */
  function ArtifactFor(link: LinkEntry, folderPath: string): Artifact {
    var names := FileNamesFor(link.displayName);
    Artifact(link.url, PathJoin(folderPath, names.audio), PathJoin(folderPath, names.document))
  }

  /** Both files of a link lie directly inside the folder: each path is the
      folder, a separator, then a file name without any path character, and
      the two differ only in the extension. */
  lemma ArtifactInFolder(link: LinkEntry, folderPath: string)
    ensures var a, names := ArtifactFor(link, folderPath), FileNamesFor(link.displayName);
      && a.sourceUrl == link.url
      && a.audioPath == DirPrefix(folderPath) + names.audio
      && a.documentPath == DirPrefix(folderPath) + names.document
      && HasNoPathChar(names.audio) && HasNoPathChar(names.document)
      && EndsWith(names.audio, AudioExt) && EndsWith(names.document, DocumentExt)
      && names.audio[..|names.audio| - 4] == names.document[..|names.document| - 4] == Sanitize(link.displayName)
  {
    var names := FileNamesFor(link.displayName);
    FileNamesShareBase(link.displayName);
    assert |names.audio| > 0 && |names.document| > 0;
    assert !IsPathChar(names.audio[0]) && !IsPathChar(names.document[0]);
    PathJoinRelative(folderPath, names.audio);
    PathJoinRelative(folderPath, names.document);
  }

  /** `process_mp3s`: for each link in order, the files it writes, when
      every download, transcription and PDF write succeeds. */
  method ProcessMp3s(links: seq<LinkEntry>, folderPath: string) returns (artifacts: seq<Artifact>)
    ensures |artifacts| == |links|
    ensures forall k :: 0 <= k < |links| ==> artifacts[k] == ArtifactFor(links[k], folderPath)
  {
    artifacts := [];
    for i := 0 to |links|
      invariant |artifacts| == i
      invariant forall k :: 0 <= k < i ==> artifacts[k] == ArtifactFor(links[k], folderPath)
    {
      var displayName := Sanitize(links[i].displayName);
      var mp3Filename := displayName + AudioExt;
      var pdfFilename := displayName + DocumentExt;
      var mp3Path := PathJoin(folderPath, mp3Filename);
      var pdfPath := PathJoin(folderPath, pdfFilename);
      artifacts := artifacts + [Artifact(links[i].url, mp3Path, pdfPath)];
    }
  }

  /** `os.path.join("static", folder_name)`: the folder name is not
      sanitised, so an absolute name replaces the static directory, and a
      relative name holding ".." can still lead outside it. */
  function FolderPath(folderName: string): (p: string)
    ensures |folderName| > 0 && folderName[0] == '/' ==> p == folderName
    ensures (folderName == [] || folderName[0] != '/') ==> p == StaticDir + "/" + folderName
  {
    PathJoin(StaticDir, folderName)
  }

  /** What the POST request answers. */
  datatype Outcome =
    | NoLinks(message: string)
      // the folder was created and, every step succeeding, each link processed in order
    | Completed(folderPath: string, artifacts: seq<Artifact>)

  /** The POST branch of `index`: scrape, answer at once when there is no
      link, otherwise create the folder and process every link, every
      download, transcription and PDF write being taken to succeed. The folder
      is created only on the second path. */
  method Index(pageUrl: string, folderName: string, anchors: seq<Anchor>, urljoin: (string, string) -> string)
    returns (outcome: Outcome)
    ensures outcome.NoLinks? <==> forall i :: 0 <= i < |anchors| ==> !IsMp3Anchor(anchors[i])
    ensures outcome.NoLinks? ==> outcome.message == NoLinksMessage
    ensures outcome.Completed? ==>
      && outcome.folderPath == FolderPath(folderName)
      && |outcome.artifacts| == |Mp3Links(pageUrl, anchors, urljoin)| > 0
      && forall k :: 0 <= k < |outcome.artifacts| ==>
           outcome.artifacts[k] == ArtifactFor(Mp3Links(pageUrl, anchors, urljoin)[k], outcome.folderPath)
  {
    var mp3Links := ScrapeMp3Links(pageUrl, anchors, urljoin);
    Mp3LinksEmptyIff(pageUrl, anchors, urljoin);
    if mp3Links == [] {
      return NoLinks(NoLinksMessage);
    }
    var folderPath := FolderPath(folderName);
    var artifacts := ProcessMp3s(mp3Links, folderPath);
    outcome := Completed(folderPath, artifacts);
  }
}
