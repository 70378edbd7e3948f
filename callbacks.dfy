/**
 * The file menu and its buttons: a received file from a premium user is
 * answered with five buttons whose callback data is `action|file_id`, and
 * a button press is checked for premium again, parsed back, and turned into
 * a download followed by the action's step.
 */
module Callbacks {
  import opened Wrappers
  import opened Text
  import opened Premium
  import opened Operations

  /**
   * The callback data of a menu button: the action, one `|` more than the
   * two parts hold between them, then the file id.
   */
  function CallbackData(action: string, fileId: string): (d: string)
    ensures |d| == |action| + 1 + |fileId|
    ensures d[..|action|] == action && d[|action|] == '|' && d[|action| + 1..] == fileId
    ensures multiset(d)['|'] == multiset(action)['|'] + 1 + multiset(fileId)['|']
  {
    action + "|" + fileId
  }

  /** A parsed button press. */
  datatype Selection = Selection(action: string, fileId: string)

  /**
   * `action, file_id = data.split("|")`: the unpacking succeeds exactly
   * when the data holds one `|`, and then the data is the two parts joined
   * by it.
   */
  function ParseCallback(data: string): (r: Option<Selection>)
    ensures r.Some? <==> multiset(data)['|'] == 1
    ensures r.Some? ==> '|' !in r.value.action && '|' !in r.value.fileId
    ensures r.Some? ==> data == CallbackData(r.value.action, r.value.fileId)
  {
    var parts := Split(data, '|');
    if |parts| == 2 then
      assert JoinWith(parts, '|') == parts[0] + ['|'] + parts[1];
      Some(Selection(parts[0], parts[1]))
    else None
  }

  /**
   * A button's data parses back to its own action and file id exactly when
   * the file id has no `|` (the action names never do).
   */
  lemma CallbackRoundTrip(action: string, fileId: string)
    requires '|' !in action
    ensures ParseCallback(CallbackData(action, fileId)) == Some(Selection(action, fileId)) <==> '|' !in fileId
  {
    var data := CallbackData(action, fileId);
    if '|' !in fileId {
      SplitPair(action, fileId, '|');
    }
  }

  /** An uploaded document, video or audio file. */
  datatype Attachment = Attachment(fileId: string, fileName: Option<string>)

  /** The answer to an uploaded file. */
  datatype MenuOutcome = NotPremiumReply | Menu(fileName: Option<string>, buttons: seq<string>)

  /** The file a menu is about: the first of document, video, audio that is present. */
  function MenuFile(document: Option<Attachment>, video: Option<Attachment>, audio: Option<Attachment>): (f: Attachment)
    requires document.Some? || video.Some? || audio.Some?
    ensures document.Some? ==> f == document.value
    ensures document.None? && video.Some? ==> f == video.value
    ensures document.None? && video.None? ==> f == audio.value
  {
    if document.Some? then document.value else if video.Some? then video.value else audio.value
  }

  /**
   * `file_received`: the handler runs for a message carrying a document, a
   * video or an audio file, and takes them in that order of preference; a
   * user without active premium is turned away, anyone else gets one button
   * per menu action.
   */
  function FileReceived(store: PremiumStore, sender: UserId, now: Timestamp,
                        document: Option<Attachment>, video: Option<Attachment>, audio: Option<Attachment>): (r: MenuOutcome)
    requires document.Some? || video.Some? || audio.Some?
    reads store
    ensures r.Menu? <==> store.IsPremium(sender, now)
    ensures r.Menu? ==> |r.buttons| == |MenuActions|
    ensures r.Menu? ==> r.fileName == MenuFile(document, video, audio).fileName
    ensures r.Menu? ==> forall i :: 0 <= i < |MenuActions| ==>
      r.buttons[i] == CallbackData(MenuActions[i], MenuFile(document, video, audio).fileId)
  {
    var file := MenuFile(document, video, audio);
    if !store.IsPremium(sender, now) then NotPremiumReply
    else Menu(file.fileName, seq(|MenuActions|, i requires 0 <= i < |MenuActions| => CallbackData(MenuActions[i], file.fileId)))
  }

  /** The answer to a button press. */
  datatype CallbackOutcome = PremiumRequired | UnknownAction | Download(selection: Selection)

  /**
   * `callback_handler`, up to the download: premium is checked again, then
   * the data must split into exactly two parts; only then is the file
   * downloaded.
   */
  function OnCallback(store: PremiumStore, sender: UserId, now: Timestamp, data: string): (r: CallbackOutcome)
    reads store
    ensures r == PremiumRequired <==> !store.IsPremium(sender, now)
    ensures r == UnknownAction <==> store.IsPremium(sender, now) && multiset(data)['|'] != 1
    ensures r.Download? ==> data == CallbackData(r.selection.action, r.selection.fileId)
  {
    if !store.IsPremium(sender, now) then PremiumRequired
    else match ParseCallback(data)
      case None => UnknownAction
      case Some(selection) => Download(selection)
  }

  /**
   * Pressing the `i`-th button of a menu, while still premium, downloads the
   * menu's file and takes the `i`-th action's step, provided the file id has
   * no `|`; with a `|` in the file id every button is an unknown action.
   */
  lemma ButtonPressRunsItsAction(store: PremiumStore, sender: UserId, now: Timestamp,
                                 document: Option<Attachment>, video: Option<Attachment>, audio: Option<Attachment>, i: nat)
    requires document.Some? || video.Some? || audio.Some?
    requires FileReceived(store, sender, now, document, video, audio).Menu?
    requires i < |MenuActions|
    ensures var file := MenuFile(document, video, audio);
            var data := FileReceived(store, sender, now, document, video, audio).buttons[i];
            && ('|' !in file.fileId ==> OnCallback(store, sender, now, data) == Download(Selection(MenuActions[i], file.fileId)))
            && ('|' in file.fileId ==> OnCallback(store, sender, now, data) == UnknownAction)
  {
    var file := MenuFile(document, video, audio);
    var action := MenuActions[i];
    assert FileReceived(store, sender, now, document, video, audio).buttons[i] == CallbackData(action, file.fileId);
    assert '|' !in action by { MenuActionsHaveNoBar(i); }
    PressOf(store, sender, now, action, file.fileId);
  }

  /** No menu action name contains `|`. */
  lemma MenuActionsHaveNoBar(i: nat)
    requires i < |MenuActions|
    ensures '|' !in MenuActions[i]
  {
  }

  /** A premium user's press of a button with a `|`-free action. */
  lemma PressOf(store: PremiumStore, sender: UserId, now: Timestamp, action: string, fileId: string)
    requires store.IsPremium(sender, now)
    requires '|' !in action
    ensures '|' !in fileId ==> OnCallback(store, sender, now, CallbackData(action, fileId)) == Download(Selection(action, fileId))
    ensures '|' in fileId ==> OnCallback(store, sender, now, CallbackData(action, fileId)) == UnknownAction
  {
    CallbackRoundTrip(action, fileId);
  }
}
