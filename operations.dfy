/**
 * What happens to a downloaded file once an action is chosen: the step each
 * action takes, the filter of the follow-up handlers that wait for the
 * user's answer, and how each answer is read and each output file named.
 * The file-system calls, the ZIP library and the video encoder are not
 * modelled; the plans record the paths and arguments they are given.
 */
module Operations {
  import opened Wrappers
  import opened Text
  import opened Numerals
  import opened Paths
  import Premium

  type MessageId = int

  /** The message a reply points to. */
  datatype RepliedMessage = RepliedMessage(messageId: MessageId)

  /** An incoming message, as far as the follow-up handlers look at it. */
  datatype Message = Message(sender: Premium.UserId, text: Option<string>, replyTo: Option<RepliedMessage>)

  /**
   * The filter of every follow-up handler: a text message that replies to
   * the handler's own prompt. Who sent it is not consulted.
   */
  function AnswersPrompt(m: Message, promptId: MessageId): (answers: bool)
    ensures m.text.None? || m.replyTo.None? ==> !answers
    ensures m.text.Some? && m.replyTo.Some? ==> (answers <==> m.replyTo.value.messageId == promptId)
  {
    m.text.Some? && m.replyTo.Some? && m.replyTo.value.messageId == promptId
  }

  /** Any user may answer another user's prompt: the sender never changes the decision. */
  lemma AnswerIgnoresSender(m: Message, promptId: MessageId, someoneElse: Premium.UserId)
    ensures AnswersPrompt(m.(sender := someoneElse), promptId) == AnswersPrompt(m, promptId)
  {
  }

  /** A message answers at most one prompt. */
  lemma AnswerSelectsOnePrompt(m: Message, p: MessageId, q: MessageId)
    requires AnswersPrompt(m, p) && AnswersPrompt(m, q)
    ensures p == q
  {
  }

  /** A ZIP file to be written: its path and the name of its single entry. */
  datatype Archive = Archive(path: string, entry: string)

  /**
   * The ZIP action (also used by the password ZIP action): the archive sits
   * beside the input as `<input>.zip` and holds one entry named by the
   * input's last path component, so the archive's file name is the entry
   * name followed by `.zip`.
   */
  function ZipArchive(filePath: string): (a: Archive)
    ensures a.path != filePath
    ensures '/' !in a.entry
    ensures Basename(a.path) == a.entry + ".zip"
    ensures a.path == filePath + ".zip" && a.entry == Basename(filePath)
  {
    BasenameAppend(filePath, ".zip");
    Archive(filePath + ".zip", Basename(filePath))
  }

  /** What the rename handler does with an answer. */
  datatype RenameOutcome = InvalidFilename | MoveTo(dest: string, newName: string)

  /**
   * The rename answer: the text is stripped; an empty name is refused, any
   * other is placed under `downloads` by `os.path.join`.
   */
  function RenameReply(text: string): (r: RenameOutcome)
    ensures r == InvalidFilename <==> AllSpace(text)
    ensures r.MoveTo? ==> r.newName != [] && r.newName == Strip(text)
    ensures r.MoveTo? ==> r.dest == Join("downloads", r.newName)
  {
    var newName := Strip(text);
    if newName == [] then InvalidFilename else MoveTo(Join("downloads", newName), newName)
  }

  /**
   * The renamed file is delivered under the name the user typed exactly
   * when that name has no `/`; otherwise it lands elsewhere (an absolute
   * name escapes `downloads` altogether) and carries only its last component.
   */
  lemma RenamedFileKeepsName(text: string)
    requires RenameReply(text).MoveTo?
    ensures Basename(RenameReply(text).dest) == RenameReply(text).newName <==> '/' !in RenameReply(text).newName
  {
    RenameTargetName(RenameReply(text).newName);
  }

  /** The name part of `downloads/<newName>` is `newName` exactly when `newName` has no `/`. */
  lemma RenameTargetName(newName: string)
    ensures Basename(Join("downloads", newName)) == newName <==> '/' !in newName
  {
    var b := Basename(Join("downloads", newName));
    if '/' !in newName {
      JoinRelative("downloads", newName);
      BasenameOf("downloads/", newName);
    } else {
      assert '/' !in b;
    }
  }

  /** What the password ZIP handler does with an answer. */
  datatype ZipPassOutcome = ZipPassOutcome(archive: Archive, password: string)

  /**
   * The password ZIP answer: the stripped text is only quoted back in the
   * caption; the archive is the very one the plain ZIP action writes, so
   * the password never reaches the file.
   */
  function ZipPassReply(filePath: string, text: string): (r: ZipPassOutcome)
    ensures r.password == Strip(text)
    ensures r.archive == ZipArchive(filePath)
  {
    ZipPassOutcome(ZipArchive(filePath), Strip(text))
  }

  /** What the extract handler does with an answer: where to extract, and with which password. */
  datatype UnzipOutcome = UnzipOutcome(directory: string, password: Option<string>)

  /** The extraction directory, `unzipped/<now>` with `now` rendered by `str`. */
  function ExtractDirectory(now: int): (d: string)
    ensures d == "unzipped/" + IntToString(now)
    ensures Basename(d) == IntToString(now)
  {
    NoSlashInNumber(now);
    JoinRelative("unzipped", IntToString(now));
    BasenameOf("unzipped/", IntToString(now));
    Join("unzipped", IntToString(now))
  }

  /**
   * The extract answer: the stripped text `0` means "no password", any
   * other stripped text is the password; files go to the directory named
   * after the current second.
   */
  function UnzipReply(text: string, now: int): (r: UnzipOutcome)
    ensures r.password == None <==> Strip(text) == "0"
    ensures r.password.Some? ==> r.password.value == Strip(text)
    ensures r.directory == ExtractDirectory(now)
  {
    var pwd := Strip(text);
    UnzipOutcome(ExtractDirectory(now), if pwd == "0" then None else Some(pwd))
  }

  /** A rendered integer has no `/`. */
  lemma NoSlashInNumber(n: int)
    ensures '/' !in IntToString(n)
  {
    var s := IntToString(n);
    assert forall i :: 0 <= i < |s| ==> s[i] == '-' || IsDigit(s[i]);
  }

  /**
   * Two extractions share a directory exactly when they happen in the same
   * second.
   */
  lemma ExtractDirectoryPerSecond(now1: int, now2: int)
    ensures ExtractDirectory(now1) == ExtractDirectory(now2) <==> now1 == now2
  {
    if ExtractDirectory(now1) == ExtractDirectory(now2) {
      IntToStringInjective(now1, now2);
    }
  }

  /** A video compression to run: input, output path and target bitrate. */
  datatype CompressJob = CompressJob(input: string, output: string, bitrate: string)

  /**
   * The compress action: the output is `<input>_compressed.mp4`, beside the
   * input, encoded at 400 kbit/s.
   */
  function CompressVideo(filePath: string): (j: CompressJob)
    ensures j.input == filePath && j.output != filePath
    ensures j.output == filePath + "_compressed.mp4"
    ensures Basename(j.output) == Basename(filePath) + "_compressed.mp4"
    ensures j.bitrate == "400k"
  {
    BasenameAppend(filePath, "_compressed.mp4");
    CompressJob(filePath, filePath + "_compressed.mp4", "400k")
  }

  /** The menu's action names, in button order. */
  const MenuActions: seq<string> := ["rename", "zip", "zippass", "unzip", "vcompress"]

  /** What the callback handler does once the file is downloaded to `filePath`. */
  datatype Step =
    | AwaitFilename(promptId: MessageId, filePath: string)
    | SendArchive(archive: Archive)
    | AwaitZipPassword(promptId: MessageId, filePath: string)
    | AwaitUnzipPassword(promptId: MessageId, filePath: string)
    | Compress(job: CompressJob)
    | NoStep

  /**
   * The action dispatch after the download: rename, password ZIP and
   * extract turn the status message into a prompt and wait for a reply to
   * it; ZIP and compress run at once; any other action name does nothing
   * more (the file has already been downloaded).
   */
  function AfterDownload(action: string, filePath: string, statusId: MessageId): (r: Step)
    ensures r.AwaitFilename? <==> action == "rename"
    ensures r.SendArchive? <==> action == "zip"
    ensures r.AwaitZipPassword? <==> action == "zippass"
    ensures r.AwaitUnzipPassword? <==> action == "unzip"
    ensures r.Compress? <==> action == "vcompress"
    ensures r.NoStep? <==> action !in MenuActions
    ensures (r.AwaitFilename? || r.AwaitZipPassword? || r.AwaitUnzipPassword?) ==> r.promptId == statusId && r.filePath == filePath
    ensures r.SendArchive? ==> r.archive == ZipArchive(filePath)
    ensures r.Compress? ==> r.job == CompressVideo(filePath)
  {
    if action == "rename" then AwaitFilename(statusId, filePath)
    else if action == "zip" then SendArchive(ZipArchive(filePath))
    else if action == "zippass" then AwaitZipPassword(statusId, filePath)
    else if action == "unzip" then AwaitUnzipPassword(statusId, filePath)
    else if action == "vcompress" then Compress(CompressVideo(filePath))
    else NoStep
  }
}
