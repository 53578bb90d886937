/** The record-keeping rules of back/main.py: the question log, broadcasts,
    site settings, support tickets, bug reports and user accounts, each the
    value its JSON file holds. The functions here say what one request does
    to that value; the class `AppData` (module AppStore) performs them. */
module Records {
  import opened Wrappers
  import opened Text
  import Security

  const Forbidden: int := 403
  const NotFound: int := 404

  /** `log_question` keeps this many entries, and this much of a question. */
  const QuestionLogCap: nat := 10000
  const LoggedQuestionLength: nat := 200

  /** `send_broadcast` keeps this many broadcasts. */
  const BroadcastCap: nat := 50
  const BroadcastTitleLength: nat := 200
  const BroadcastMessageLength: nat := 1000

  /** `reply` keeps this much of a message. */
  const ReplyLength: nat := 2000

  // ------------------------------------------------------------ question log

  datatype LoggedQuestion = LoggedQuestion(username: string, question: string, timestamp: string)

  /** The log after `log_question` appended `entry`: the newest entries, at
      most `QuestionLogCap` of them. */
  function Logged(log: seq<LoggedQuestion>, entry: LoggedQuestion): seq<LoggedQuestion>
  {
    var l := log + [entry];
    if |l| > QuestionLogCap then l[|l| - QuestionLogCap..] else l
  }

  /** The entry `log_question(username, question)` appends at time `now`. */
  function LogEntry(username: string, question: string, now: string): (e: LoggedQuestion)
    ensures e.username == username && e.timestamp == now
    ensures |e.question| <= LoggedQuestionLength && |e.question| <= |question|
    ensures e.question == question[..|e.question|]
    ensures |question| <= LoggedQuestionLength ==> e.question == question
  {
    LoggedQuestion(username, Take(question, LoggedQuestionLength), now)
  }

  /** The new entry comes last; before it stand the newest entries of the old
      log, all of them while the cap allows, and the cap is never exceeded. */
  lemma LoggedCorrect(log: seq<LoggedQuestion>, entry: LoggedQuestion)
    ensures var r := Logged(log, entry);
      && |r| == (if |log| + 1 > QuestionLogCap then QuestionLogCap else |log| + 1)
      && r[|r| - 1] == entry
      && r[..|r| - 1] == log[|log| - (|r| - 1)..]
  {
    var l := log + [entry];
    var r := Logged(log, entry);
    if |l| > QuestionLogCap {
      assert r[..|r| - 1] == l[|l| - QuestionLogCap..|l| - 1];
    }
  }

  // -------------------------------------------------------------- broadcasts

  datatype Broadcast = Broadcast(id: string, title: string, message: string, createdAt: string, author: string)

  /** The list after `send_broadcast` put `b` in front: at most `BroadcastCap`. */
  function Pushed(bs: seq<Broadcast>, b: Broadcast): seq<Broadcast>
  {
    var l := [b] + bs;
    if |l| > BroadcastCap then l[..BroadcastCap] else l
  }

  /** The new broadcast comes first; after it stand the newest older ones,
      the oldest dropped once there are more than `BroadcastCap`. */
  lemma PushedCorrect(bs: seq<Broadcast>, b: Broadcast)
    ensures var r := Pushed(bs, b);
      && |r| == (if |bs| + 1 > BroadcastCap then BroadcastCap else |bs| + 1)
      && r[0] == b
      && r[1..] == bs[..|r| - 1]
  {
  }

  /** The broadcast `send_broadcast` stores, or the refusal of its title or
      message by `sanitize_input`. */
  function NewBroadcast(id: string, title: string, message: string, now: string, author: string,
                        dangerous: string -> bool): (r: Result<Broadcast>)
    ensures r.Err? <==>
      Security.SanitizeInput(title, BroadcastTitleLength, dangerous).Err? ||
      Security.SanitizeInput(message, BroadcastMessageLength, dangerous).Err?
    ensures r.Err? ==> r.status == Security.BadRequest
    ensures r.Ok? ==> r.value.id == id && r.value.author == author && r.value.createdAt == now
    ensures r.Ok? ==> |r.value.title| <= BroadcastTitleLength && |r.value.message| <= BroadcastMessageLength
    ensures r.Ok? ==>
      && r.value.title == Security.SanitizeInput(title, BroadcastTitleLength, dangerous).value
      && r.value.message == Security.SanitizeInput(message, BroadcastMessageLength, dangerous).value
  {
    Security.SanitizeInputCorrect(title, BroadcastTitleLength, dangerous);
    Security.SanitizeInputCorrect(message, BroadcastMessageLength, dangerous);
    match Security.SanitizeInput(title, BroadcastTitleLength, dangerous)
    case Err(s) => Err(s)
    case Ok(t) =>
      match Security.SanitizeInput(message, BroadcastMessageLength, dangerous)
      case Err(s) => Err(s)
      case Ok(m) => Ok(Broadcast(id, t, m, now, author))
  }

  // ---------------------------------------------------------------- settings

  /** A JSON value of the settings file (numbers are integers here). */
  datatype Json = JNull | JText(s: string) | JNumber(n: int) | JFlag(b: bool)

  const MaxQuestionLengthKey: string := "max_q_len"

  /** What `get_settings` returns while the settings file is missing. */
  const DefaultSettings: map<string, Json> := map[
    "site_title" := JText("رساله آیت\U{200C}الله سید علی محمد دستغیب"),
    "site_subtitle" := JText("دستیار هوشمند احکام فقهی"),
    "primary_color" := JText("#7c6af7"),
    "gold_color" := JText("#e8c97a"),
    "welcome_text" := JText("سوال فقهی خود را بپرسید. جواب با ذکر شماره مسئله ارائه می\U{200C}شود."),
    MaxQuestionLengthKey := JNumber(500)
  ]

  /** The keys `save_settings` accepts. */
  const AllowedSettings: set<string> := {
    "site_title", "site_subtitle", "primary_color", "gold_color",
    "welcome_text", "max_q_len",
    "logo_url", "bg_color", "surface_color", "text_color",
    "accent_color_2", "border_color", "header_bg",
    "font_family", "default_greeting", "footer_text",
    "maintenance_mode", "maintenance_message"
  }

  /** The settings after `save_settings(updates)`: each allowed key of the
      request overrides, everything else stays. */
  function Merged(current: map<string, Json>, updates: map<string, Json>): map<string, Json>
  {
    current + map k | k in updates && k in AllowedSettings :: updates[k]
  }

  /** An allowed key of the request takes the request's value; every other
      key keeps its old value, or stays absent: a key outside the allowed
      set is never stored and never changed. */
  lemma MergedCorrect(current: map<string, Json>, updates: map<string, Json>, k: string)
    ensures var r := Merged(current, updates);
      && (k in r <==> k in current || (k in updates && k in AllowedSettings))
      && (k in updates && k in AllowedSettings ==> r[k] == updates[k])
      && (!(k in updates && k in AllowedSettings) && k in current ==> r[k] == current[k])
      && (k !in AllowedSettings ==> (k in r <==> k in current))
  {
  }

  /** What `pub_settings` returns: every setting except `max_q_len`. */
  function Public(settings: map<string, Json>): map<string, Json>
  {
    map k | k in settings && k != MaxQuestionLengthKey :: settings[k]
  }

  /** The public view holds every other setting with its value, and never
      the question length limit, whatever was saved. */
  lemma PublicCorrect(settings: map<string, Json>, updates: map<string, Json>)
    ensures Public(settings).Keys == settings.Keys - {MaxQuestionLengthKey}
    ensures forall k :: k in Public(settings) ==> Public(settings)[k] == settings[k]
    ensures MaxQuestionLengthKey !in Public(Merged(settings, updates))
  {
  }

  // ----------------------------------------------------------------- tickets

  datatype Message = Message(from: string, role: string, text: string, at: string)

  datatype Ticket = Ticket(id: string, username: string, subject: string, status: string,
                           createdAt: string, messages: seq<Message>)

  /** The signed-in user of a request: `u["sub"]` and `u["role"]`. */
  datatype Caller = Caller(name: string, role: string)

  predicate IsAdmin(u: Caller)
  {
    u.role == "admin"
  }

  /** Index of the first ticket with id `tid`: where `for t in tickets`
      stops. */
  function TicketAt(ts: seq<Ticket>, tid: string): (r: Option<nat>)
    ensures r.Some? ==> r.value < |ts| && ts[r.value].id == tid
    ensures r.Some? ==> forall j :: 0 <= j < r.value ==> ts[j].id != tid
    ensures r.None? ==> forall j :: 0 <= j < |ts| ==> ts[j].id != tid
  {
    if ts == [] then None
    else if ts[0].id == tid then Some(0)
    else match TicketAt(ts[1..], tid)
      case None => None
      case Some(i) => Some(i + 1)
  }

  /** The tickets `list_tickets` shows `u`. */
  function Visible(ts: seq<Ticket>, u: Caller): seq<Ticket>
  {
    if IsAdmin(u) then ts
    else if ts == [] then []
    else (if ts[0].username == u.name then [ts[0]] else []) + Visible(ts[1..], u)
  }

  /** An admin sees every ticket; anyone else sees exactly the tickets
      opened under their own name, in the stored order. */
  lemma {:induction false} VisibleCorrect(ts: seq<Ticket>, u: Caller)
    ensures IsAdmin(u) ==> Visible(ts, u) == ts
    ensures forall t :: t in Visible(ts, u) <==> t in ts && (IsAdmin(u) || t.username == u.name)
    ensures |Visible(ts, u)| <= |ts|
  {
    if !IsAdmin(u) && ts != [] {
      VisibleCorrect(ts[1..], u);
      assert ts == [ts[0]] + ts[1..];
    }
  }

  /** The ticket after a reply by `u`: one more message, and the status the
      reply leaves (answered by an admin, open again otherwise). */
  function Replied(t: Ticket, u: Caller, text: string, at: string): Ticket
  {
    t.(messages := t.messages + [Message(u.name, u.role, text, at)],
       status := if IsAdmin(u) then "answered" else "open")
  }

  /** The tickets after `reply(tid, message)` by `u`, or its error status. */
  function Replying(ts: seq<Ticket>, tid: string, u: Caller, message: string, at: string,
                    dangerous: string -> bool): Result<seq<Ticket>>
  {
    match TicketAt(ts, tid)
    case None => Err(NotFound)
    case Some(i) =>
      if !IsAdmin(u) && ts[i].username != u.name then Err(Forbidden)
      else match Security.SanitizeInput(message, ReplyLength, dangerous)
        case Err(s) => Err(s)
        case Ok(text) => Ok(ts[i := Replied(ts[i], u, text, at)])
  }

  /** An unknown id is 404; someone who is neither an admin nor the owner
      of the first ticket with the id gets 403; a message `sanitize_input`
      refuses gets 400; there is no other refusal, so an owner's or an
      admin's clean reply to an existing ticket goes through. */
  lemma ReplyingRefusals(ts: seq<Ticket>, tid: string, u: Caller, message: string, at: string,
                         dangerous: string -> bool)
    ensures var r := Replying(ts, tid, u, message, at, dangerous);
      && (r == Err(NotFound) <==> forall j :: 0 <= j < |ts| ==> ts[j].id != tid)
      && (r == Err(Forbidden) <==>
            TicketAt(ts, tid).Some? && !IsAdmin(u) && ts[TicketAt(ts, tid).value].username != u.name)
      && (r == Err(Security.BadRequest) <==>
            TicketAt(ts, tid).Some? && (IsAdmin(u) || ts[TicketAt(ts, tid).value].username == u.name)
            && Security.SanitizeInput(message, ReplyLength, dangerous).Err?)
      && (r.Ok? <==>
            TicketAt(ts, tid).Some? && (IsAdmin(u) || ts[TicketAt(ts, tid).value].username == u.name)
            && Security.SanitizeInput(message, ReplyLength, dangerous).Ok?)
      && (r.Err? ==> r.status in {NotFound, Forbidden, Security.BadRequest})
  {
    Security.SanitizeInputCorrect(message, ReplyLength, dangerous);
  }

  /** A reply that goes through adds exactly one message, from `u`, to the
      first ticket with the id, holding the cleaned message and the time
      of the reply; the ticket becomes "answered" when `u` is an
      admin and "open" otherwise; every other ticket is unchanged. */
  lemma ReplyingAppends(ts: seq<Ticket>, tid: string, u: Caller, message: string, at: string,
                        dangerous: string -> bool)
    requires Replying(ts, tid, u, message, at, dangerous).Ok?
    ensures TicketAt(ts, tid).Some?
    ensures var r, i := Replying(ts, tid, u, message, at, dangerous).value, TicketAt(ts, tid).value;
      && |r| == |ts|
      && (forall j :: 0 <= j < |ts| && j != i ==> r[j] == ts[j])
      && r[i].id == tid && r[i].username == ts[i].username && r[i].subject == ts[i].subject
      && r[i].messages[..|ts[i].messages|] == ts[i].messages
      && |r[i].messages| == |ts[i].messages| + 1
      && r[i].messages[|ts[i].messages|].from == u.name
      && r[i].messages[|ts[i].messages|].role == u.role
      && |r[i].messages[|ts[i].messages|].text| <= ReplyLength
      && r[i].messages[|ts[i].messages|] ==
           Message(u.name, u.role, Security.SanitizeInput(message, ReplyLength, dangerous).value, at)
      && r[i].status == (if IsAdmin(u) then "answered" else "open")
  {
    Security.SanitizeInputCorrect(message, ReplyLength, dangerous);
  }

  /** The tickets after `close_ticket(tid)`, or 404. */
  function Closing(ts: seq<Ticket>, tid: string): Result<seq<Ticket>>
  {
    match TicketAt(ts, tid)
    case None => Err(NotFound)
    case Some(i) => Ok(ts[i := ts[i].(status := "closed")])
  }

  /** Closing an unknown id is 404; otherwise the first ticket with the id
      is "closed", keeps everything else, and no other ticket changes. */
  lemma ClosingCorrect(ts: seq<Ticket>, tid: string)
    ensures Closing(ts, tid).Err? <==> forall j :: 0 <= j < |ts| ==> ts[j].id != tid
    ensures Closing(ts, tid).Err? ==> Closing(ts, tid).status == NotFound
    ensures Closing(ts, tid).Ok? ==>
      exists i :: 0 <= i < |ts| && ts[i].id == tid && (forall j :: 0 <= j < i ==> ts[j].id != tid)
        && Closing(ts, tid).value == ts[i := ts[i].(status := "closed")]
    ensures Closing(ts, tid).Ok? ==>
      var r := Closing(ts, tid).value;
      && |r| == |ts|
      && (forall j :: 0 <= j < |ts| ==> r[j].id == ts[j].id && r[j].messages == ts[j].messages)
      && (forall j :: 0 <= j < |ts| && r[j] != ts[j] ==> r[j].status == "closed" && ts[j].id == tid)
  {
  }

  // -------------------------------------------------------------------- bugs

  datatype Bug = Bug(id: string, username: string, title: string, description: string,
                     question: string, status: string, createdAt: string, updatedAt: Option<string>)

  /** Index of the first bug with id `bid`. */
  function BugAt(bs: seq<Bug>, bid: string): (r: Option<nat>)
    ensures r.Some? ==> r.value < |bs| && bs[r.value].id == bid
    ensures r.Some? ==> forall j :: 0 <= j < r.value ==> bs[j].id != bid
    ensures r.None? ==> forall j :: 0 <= j < |bs| ==> bs[j].id != bid
  {
    if bs == [] then None
    else if bs[0].id == bid then Some(0)
    else match BugAt(bs[1..], bid)
      case None => None
      case Some(i) => Some(i + 1)
  }

  /** The bugs after `update_bug(bid, status)` at time `now`; the request
      succeeds whether or not the id exists. */
  function BugUpdated(bs: seq<Bug>, bid: string, status: string, now: string): seq<Bug>
  {
    match BugAt(bs, bid)
    case None => bs
    case Some(i) => bs[i := bs[i].(status := status, updatedAt := Some(now))]
  }

  /** Only the first bug with the id changes, and only in its status and
      update time; without such a bug nothing changes. */
  lemma BugUpdatedCorrect(bs: seq<Bug>, bid: string, status: string, now: string)
    ensures var r := BugUpdated(bs, bid, status, now);
      && |r| == |bs|
      && ((forall j :: 0 <= j < |bs| ==> bs[j].id != bid) ==> r == bs)
      && (forall j :: 0 <= j < |bs| && r[j] != bs[j] ==>
            bs[j].id == bid && (forall k :: 0 <= k < j ==> bs[k].id != bid)
            && r[j] == bs[j].(status := status, updatedAt := Some(now)))
      && (forall j :: 0 <= j < |bs| && bs[j].id == bid && (forall k :: 0 <= k < j ==> bs[k].id != bid) ==>
            r[j].status == status && r[j].updatedAt == Some(now))
  {
  }

  // ------------------------------------------------------------------- users

  datatype Account = Account(passwordHash: string, role: string, createdAt: string)

  const AdminName: string := "admin"

  predicate ValidRole(role: string)
  {
    role == "admin" || role == "user"
  }

  /** The accounts after `create_user(username, password, role)` at time
      `now`, or 400; `hash` stands for `hash_password`. */
  function Creating(users: map<string, Account>, username: string, password: string, role: string,
                    now: string, hash: string -> string): Result<map<string, Account>>
  {
    match Security.SanitizeUsername(username)
    case Err(s) => Err(s)
    case Ok(un) =>
      match Security.SanitizePassword(password)
      case Err(s) => Err(s)
      case Ok(pw) =>
        if un in users then Err(Security.BadRequest)
        else if !ValidRole(role) then Err(Security.BadRequest)
        else Ok(users[un := Account(hash(pw), role, now)])
  }

  /** Every refusal is 400, and an existing account or a role other than
      admin and user is refused; a name and password that pass the checks,
      a name not yet taken and a valid role are always accepted. A success
      adds one account, under the
      cleaned username, with a valid role, and changes no existing one. */
  lemma CreatingCorrect(users: map<string, Account>, username: string, password: string, role: string,
                        now: string, hash: string -> string)
    ensures var r := Creating(users, username, password, role, now, hash);
      && (r.Err? ==> r.status == Security.BadRequest)
      && (!ValidRole(role) ==> r.Err?)
      && (Security.SanitizeUsername(username).Ok? && Security.SanitizeUsername(username).value in users ==> r.Err?)
      && (r.Ok? <==>
            && Security.SanitizeUsername(username).Ok? && Security.SanitizePassword(password).Ok?
            && Security.SanitizeUsername(username).value !in users && ValidRole(role))
      && (r.Ok? ==>
            var un := Security.SanitizeUsername(username).value;
            && un !in users
            && r.value.Keys == users.Keys + {un}
            && (forall k :: k in users ==> r.value[k] == users[k])
            && r.value[un].role == role && ValidRole(role)
            && r.value[un].createdAt == now
            && Security.MinPassword <= |password| <= Security.MaxPassword
            && r.value[un].passwordHash == hash(password))
  {
    Security.SanitizeUsernameCorrect(username);
  }

  /** The accounts after `del_user(uname)`, or its error status. */
  function Deleting(users: map<string, Account>, uname: string): Result<map<string, Account>>
  {
    if uname == AdminName then Err(Security.BadRequest)
    else if uname !in users then Err(NotFound)
    else Ok(users - {uname})
  }

  /** The main admin account can never be deleted (400), an unknown name is
      404, and otherwise exactly that account goes: deleting any other
      existing account always succeeds. */
  lemma DeletingCorrect(users: map<string, Account>, uname: string)
    ensures Deleting(users, uname) == Err(Security.BadRequest) <==> uname == AdminName
    ensures Deleting(users, uname) == Err(NotFound) <==> uname != AdminName && uname !in users
    ensures Deleting(users, uname).Ok? <==> uname != AdminName && uname in users
    ensures Deleting(users, uname).Ok? ==>
      && uname in users
      && Deleting(users, uname).value.Keys == users.Keys - {uname}
      && (forall k :: k in Deleting(users, uname).value ==> Deleting(users, uname).value[k] == users[k])
      && (AdminName in users ==> AdminName in Deleting(users, uname).value)
  {
  }
}
