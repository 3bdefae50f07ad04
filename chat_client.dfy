/** The rules of the chat page script: HTML escaping, how a received
    message is rendered (sent or received, its menu, the read tick), the
    send guard, the bulk-action buttons and the plain-text export. */
module ChatClient {
  import opened Common
  import opened Text
  import opened Messages
  import CreatorMessages
  import Store

  /** The five characters `escapeHtml` replaces. */
  predicate Special(c: char) {
    c == '&' || c == '<' || c == '>' || c == '"' || c == '\''
  }

  function EscapeChar(c: char): (r: string)
    ensures !Special(c) ==> r == [c]
    ensures Special(c) ==> |r| >= 4 && r[0] == '&' && r[|r| - 1] == ';'
    ensures forall i :: 0 <= i < |r| ==> r[i] != '<' && r[i] != '>' && r[i] != '"' && r[i] != '\''
  {
    match c
    case '&' => "&amp;"
    case '<' => "&lt;"
    case '>' => "&gt;"
    case '"' => "&quot;"
    case '\'' => "&#39;"
    case _ => [c]
  }

  /** `escapeHtml(text)`. The script applies it only to the pinned
      message's banner; a pushed message's content goes into the page
      unescaped. */
  function EscapeHtml(s: string): (r: string)
    ensures |r| >= |s|
    ensures forall i :: 0 <= i < |r| ==> r[i] != '<' && r[i] != '>' && r[i] != '"' && r[i] != '\''
  {
    if s == [] then [] else EscapeChar(s[0]) + EscapeHtml(s[1..])
  }

  /** Text with none of the five characters comes out unchanged. */
  lemma {:induction false} EscapeHtmlPlain(s: string)
    requires forall i :: 0 <= i < |s| ==> !Special(s[i])
    ensures EscapeHtml(s) == s
  {
    if s != [] {
      EscapeHtmlPlain(s[1..]);
    }
  }

  /** The entity at the start of `s`, if any: the character it stands for
      and its length. */
  function EntityAt(s: string): (r: Option<(char, nat)>)
    ensures r.Some? ==> 4 <= r.value.1 <= |s| && s[0] == '&'
  {
    if |s| < 4 || s[0] != '&' then None
    else if s[1] == 'a' then (if |s| >= 5 && s[..5] == "&amp;" then Some(('&', 5)) else None)
    else if s[1] == 'l' then (if s[..4] == "&lt;" then Some(('<', 4)) else None)
    else if s[1] == 'g' then (if s[..4] == "&gt;" then Some(('>', 4)) else None)
    else if s[1] == 'q' then (if |s| >= 6 && s[..6] == "&quot;" then Some(('"', 6)) else None)
    else if s[1] == '#' then (if |s| >= 5 && s[..5] == "&#39;" then Some(('\'', 5)) else None)
    else None
  }

  /** What a browser makes of the escaped text: the five entities become
      their characters again, everything else stays. */
  function Unescape(s: string): string
    decreases |s|
  {
    if s == [] then []
    else match EntityAt(s)
      case Some((c, n)) => [c] + Unescape(s[n..])
      case None => [s[0]] + Unescape(s[1..])
  }

  lemma UnescapeChar(c: char, t: string)
    ensures Unescape(EscapeChar(c) + t) == [c] + Unescape(t)
  {
    var e := EscapeChar(c);
    var s := e + t;
    assert s[..|e|] == e;
    assert s[|e|..] == t;
    if Special(c) {
      assert EntityAt(s) == Some((c, |e|));
    } else {
      assert s[0] == c;
      assert s[1..] == t;
    }
  }

  /** Escaping loses nothing: the displayed text is the original text. */
  lemma {:induction false} EscapeRoundTrip(s: string)
    ensures Unescape(EscapeHtml(s)) == s
  {
    if s != [] {
      EscapeRoundTrip(s[1..]);
      UnescapeChar(s[0], EscapeHtml(s[1..]));
    }
  }

  /** The entries of a message's drop-down menu. */
  datatype MenuItem = Edit | DeleteForMe | DeleteForEveryone | Info | Pin | Unpin | Copy

  /** How the client renders a pushed message. */
  datatype Rendered = Rendered(sent: bool, menu: seq<MenuItem>, readTick: bool)

  /** A message is "sent" when its sender is the current user, "received"
      otherwise; the menu and the read tick follow from that. The content
      itself is inserted into `innerHTML` as it arrives, not escaped. */
  function Render(sender: string, currentUser: string, isRead: bool, isPinned: bool): (r: Rendered)
    ensures r.sent <==> sender == currentUser
    ensures DeleteForMe in r.menu
    ensures Edit in r.menu <==> r.sent
    ensures DeleteForEveryone in r.menu <==> r.sent
    ensures Info in r.menu <==> r.sent
    ensures Copy in r.menu <==> !r.sent
    ensures Pin in r.menu <==> !r.sent && !isPinned
    ensures Unpin in r.menu <==> !r.sent && isPinned
    ensures |r.menu| == (if r.sent then 4 else 3)
    ensures r.readTick <==> r.sent && isRead
  {
    var sent := sender == currentUser;
    var menu := if sent then [Edit, DeleteForMe, DeleteForEveryone, Info]
                else [if isPinned then Unpin else Pin, Copy, DeleteForMe];
    Rendered(sent, menu, sent && isRead)
  }

  /** The client offers "Delete for everyone" and "Edit" on exactly the
      messages the server lets the current user delete for everyone and
      edit. */
  lemma MenuAgreesWithServer(msgs: seq<Message>, k: nat, currentUser: string, isRead: bool, isPinned: bool)
    requires k < |msgs| && CreatorMessages.MessageIndex(msgs, msgs[k].id) == Some(k)
    ensures DeleteForEveryone in Render(msgs[k].senderId, currentUser, isRead, isPinned).menu
            <==> CreatorMessages.DeleteOutcome(msgs, Some(currentUser), msgs[k].id, "all") == Store.Ok
    ensures Edit in Render(msgs[k].senderId, currentUser, isRead, isPinned).menu
            <==> CreatorMessages.EditContent(msgs, Some(currentUser), msgs[k].id, "").Some?
  {
  }

  /** The send button: sender, receiver and content are trimmed, and the call
      goes out, with the trimmed values, only if none of them is empty. */
  function SendGuard(sender: string, receiver: string, content: string): (r: Option<(string, string, string)>)
    ensures r.None? <==> AllWhiteSpace(sender) || AllWhiteSpace(receiver) || AllWhiteSpace(content)
    ensures r.Some? ==> r.value == (Trim(sender), Trim(receiver), Trim(content))
  {
    TrimEmptyIffWhiteSpace(sender);
    TrimEmptyIffWhiteSpace(receiver);
    TrimEmptyIffWhiteSpace(content);
    var s, t, c := Trim(sender), Trim(receiver), Trim(content);
    if c == [] || s == [] || t == [] then None else Some((s, t, c))
  }

  /** Whatever passes the send guard makes a message that meets the
      record's required-field annotations. */
  lemma SendGuardMeetsAnnotations(sender: string, receiver: string, content: string, id: int, now: int)
    requires SendGuard(sender, receiver, content).Some?
    ensures var (s, t, c) := SendGuard(sender, receiver, content).value;
            MeetsAnnotations(NewMessage(id, s, t, c, now))
  {
    var (s, t, c) := SendGuard(sender, receiver, content).value;
    TrimIdempotent(sender);
    TrimIdempotent(receiver);
    TrimIdempotent(content);
    TrimEmptyIffWhiteSpace(s);
    TrimEmptyIffWhiteSpace(t);
    TrimEmptyIffWhiteSpace(c);
  }

  /** The visibility of the two bulk-action buttons. */
  datatype BulkButtons = BulkButtons(deleteAll: bool, cancel: bool)

  /** `updateBulkActionsUI`: `senders` are the `data-sender-id` values of
      the selected messages (`None` where the attribute is missing). */
  function BulkActions(senders: seq<Option<string>>, currentUser: string): (b: BulkButtons)
    ensures b.cancel <==> senders != []
    ensures b.deleteAll <==> senders != [] && forall i :: 0 <= i < |senders| ==> senders[i] == Some(currentUser)
    ensures b.deleteAll ==> b.cancel
  {
    if senders == [] then BulkButtons(false, false)
    else BulkButtons(forall i :: 0 <= i < |senders| ==> senders[i] == Some(currentUser), true)
  }

  function SenderAttributes(selected: seq<Message>): (r: seq<Option<string>>)
    ensures |r| == |selected|
    ensures forall i :: 0 <= i < |selected| ==> r[i] == Some(selected[i].senderId)
  {
    seq(|selected|, i requires 0 <= i < |selected| => Some(selected[i].senderId))
  }

  /** `m` is the row the server finds under `m.id`. */
  predicate StoredUnderItsId(msgs: seq<Message>, m: Message) {
    exists k :: 0 <= k < |msgs| && msgs[k] == m && CreatorMessages.MessageIndex(msgs, m.id) == Some(k)
  }

  /** When "delete for everyone" is offered on a selection, the server
      accepts it for every selected message. */
  lemma BulkDeleteAllAccepted(msgs: seq<Message>, selected: seq<Message>, currentUser: string)
    requires forall m :: m in selected ==> StoredUnderItsId(msgs, m)
    requires BulkActions(SenderAttributes(selected), currentUser).deleteAll
    ensures forall m :: m in selected ==>
              CreatorMessages.DeleteOutcome(msgs, Some(currentUser), m.id, "all") == Store.Ok
  {
    forall m | m in selected
      ensures CreatorMessages.DeleteOutcome(msgs, Some(currentUser), m.id, "all") == Store.Ok
    {
      var i :| 0 <= i < |selected| && selected[i] == m;
      assert SenderAttributes(selected)[i] == Some(currentUser);
    }
  }

  /** What the export reads from one selected message element. `text` and
      `time` are the inner texts of its paragraph and its time stamp (`""`
      when the element is missing). */
  datatype ExportSource = ExportSource(senderAttr: Option<string>, text: string, time: string)

  const Unknown := "Unknown"
  const SenderLabel := "Sender ID: "
  const ExportSeparator := "\n\n-------------------------\n\n"

  /** `getAttribute('data-sender-id') || "Unknown"`: a missing or empty
      attribute reads as "Unknown". */
  function ExportSender(a: Option<string>): (s: string)
    ensures s == Unknown <==> a.None? || a.value == "" || a.value == Unknown
    ensures s != ""
  {
    if a.None? || a.value == "" then Unknown else a.value
  }

  function EntryBody(src: ExportSource): string {
    ExportSender(src.senderAttr) + ("\nTime: " + Trim(src.time) + "\nMessage: " + Trim(src.text))
  }

  /** One entry: sender, time and message text on three labelled lines. */
  function ExportEntry(src: ExportSource): (e: string)
    ensures |SenderLabel| <= |e| && e[..|SenderLabel|] == SenderLabel
    ensures e[|SenderLabel|..] == EntryBody(src)
  {
    SenderLabel + EntryBody(src)
  }

  /** The sender can be read back from an entry. */
  function ReadSender(entry: string): string {
    if |entry| >= |SenderLabel| then BeforeFirst(entry[|SenderLabel|..], '\n') else ""
  }

  lemma {:induction false} BeforeFirstOfConcat(s: string, rest: string, c: char)
    requires c !in s && rest != [] && rest[0] == c
    ensures BeforeFirst(s + rest, c) == s
  {
    if s == [] {
      assert s + rest == rest;
    } else {
      assert (s + rest)[0] == s[0];
      assert (s + rest)[1..] == s[1..] + rest;
      BeforeFirstOfConcat(s[1..], rest, c);
    }
  }

  /** A sender with no line break is read back from its entry. */
  lemma ExportSenderReadBack(src: ExportSource)
    requires '\n' !in ExportSender(src.senderAttr)
    ensures ReadSender(ExportEntry(src)) == ExportSender(src.senderAttr)
  {
    var rest := "\nTime: " + Trim(src.time) + "\nMessage: " + Trim(src.text);
    BeforeFirstOfConcat(ExportSender(src.senderAttr), rest, '\n');
  }

  /** Selected checkboxes outside a message element are skipped. */
  function Present(selected: seq<Option<ExportSource>>): (r: seq<ExportSource>)
    ensures |r| <= |selected|
    ensures forall x :: x in r <==> Some(x) in selected
  {
    if selected == [] then []
    else if selected[0].Some? then [selected[0].value] + Present(selected[1..])
    else Present(selected[1..])
  }

  function Entries(srcs: seq<ExportSource>): (r: seq<string>)
    ensures |r| == |srcs|
    ensures forall i :: 0 <= i < |srcs| ==> r[i] == ExportEntry(srcs[i])
  {
    seq(|srcs|, i requires 0 <= i < |srcs| => ExportEntry(srcs[i]))
  }

  /** The export: `None` ("No messages selected.") when no selected checkbox
      belongs to a message, otherwise the entries joined by the dashed
      separator. */
  function Export(selected: seq<Option<ExportSource>>): (r: Option<string>)
    ensures r.None? <==> forall i :: 0 <= i < |selected| ==> selected[i].None?
    ensures r.Some? ==> |SenderLabel| <= |r.value| && r.value[..|SenderLabel|] == SenderLabel
  {
    var present := Present(selected);
    PresentEmpty(selected);
    if present == [] then None
    else
      var entries := Entries(present);
      var joined := Join(ExportSeparator, entries);
      JoinStartsWithFirst(ExportSeparator, entries);
      PrefixOfPrefix(joined, entries[0], SenderLabel);
      Some(joined)
  }

  /** A line break, line break, dash sequence starts at position `j`: the
      way every export separator begins. */
  predicate BreakDashAt(s: string, j: int) {
    0 <= j && j + 3 <= |s| && s[j..j + 3] == "\n\n-"
  }

  /** An entry holding no line break, line break, dash sequence cannot be
      mistaken for the start of the export separator. */
  lemma NoBreakDashEndsBeforeSeparator(entry: string)
    requires forall j :: !BreakDashAt(entry, j)
    ensures EndsBeforeSeparator(entry, ExportSeparator)
  {
    var t := entry + ExportSeparator;
    assert ExportSeparator[..3] == "\n\n-";
    forall j | 0 <= j < |entry| ensures !OccursAt(t, ExportSeparator, j) {
      if j + 3 <= |entry| {
        assert t[j..j + 3] == entry[j..j + 3];
        assert !BreakDashAt(entry, j);
      } else {
        assert t[j + 2] == ExportSeparator[j + 2 - |entry|] == '\n';
      }
      assert t[j..j + |ExportSeparator|][..3] == t[j..j + 3];
    }
  }

  /** Splitting the exported text on the separator gives back exactly the
      entries of the selected messages, in order, as long as no entry holds
      a line break, line break, dash sequence. */
  lemma ExportSplitsIntoEntries(selected: seq<Option<ExportSource>>)
    requires Export(selected).Some?
    requires forall e, j :: e in Entries(Present(selected)) ==> !BreakDashAt(e, j)
    ensures SplitOn(Export(selected).value, ExportSeparator) == Entries(Present(selected))
  {
    var entries := Entries(Present(selected));
    forall i | 0 <= i < |entries| ensures EndsBeforeSeparator(entries[i], ExportSeparator) {
      assert entries[i] in entries;
      NoBreakDashEndsBeforeSeparator(entries[i]);
    }
    SplitJoinRoundTrip(ExportSeparator, entries);
  }

  lemma PrefixOfPrefix(a: string, b: string, c: string)
    requires |b| <= |a| && a[..|b|] == b && |c| <= |b| && b[..|c|] == c
    ensures |c| <= |a| && a[..|c|] == c
  {
    assert a[..|c|] == a[..|b|][..|c|];
  }

  lemma PresentEmpty(selected: seq<Option<ExportSource>>)
    ensures Present(selected) == [] <==> forall i :: 0 <= i < |selected| ==> selected[i].None?
  {
    var present := Present(selected);
    if present != [] {
      assert Some(present[0]) in selected;
    }
    if exists i :: 0 <= i < |selected| && selected[i].Some? {
      var i :| 0 <= i < |selected| && selected[i].Some?;
      assert selected[i].value in present;
    }
  }

  lemma JoinStartsWithFirst(sep: string, parts: seq<string>)
    requires parts != []
    ensures |Join(sep, parts)| >= |parts[0]| && Join(sep, parts)[..|parts[0]|] == parts[0]
  {
  }
}
