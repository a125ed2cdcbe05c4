/**
 * The chat tool's conversation state and its save rules: when a conversation is
 * saved to the chat history, under which id and title, and what context goes with
 * each message.
 */
module Chatbot {
  import opened Wrappers
  import Codec
  import Text
  import History

  datatype Role = User | Assistant

  datatype Message = Message(id: string, content: string, role: Role, timestamp: nat)

  /** The tool's own fields of a saved session; id and timestamp are the history record's. */
  datatype SessionData = SessionData(messages: seq<Message>, title: string)

  type ChatSession = History.Record<SessionData>

  const WelcomeText := "Hello! I'm your AI assistant. How can I help you today?"
  const NoResponseText := "No response."
  const HistoryKey := "ai-chatbot-history"
  const HistoryCap: nat := 20
  const TitleLength: nat := 50
  const ContextLength: nat := 5

  /** The single assistant message a new conversation starts with. */
  function Welcome(now: nat): Message {
    Message("welcome", WelcomeText, Assistant, now)
  }

  /** JavaScript truthiness of `currentSessionId`: present and not the empty string. */
  predicate IsSet(sessionId: Option<string>) {
    sessionId.Some? && sessionId.value != ""
  }

  predicate HasRole(ms: seq<Message>, role: Role) {
    exists i :: 0 <= i < |ms| && ms[i].role == role
  }

  /** `m` is the first message of `ms` with role `role`. */
  ghost predicate IsFirstOfRole(ms: seq<Message>, role: Role, m: Message) {
    exists i :: 0 <= i < |ms| && ms[i] == m && m.role == role
      && forall j :: 0 <= j < i ==> ms[j].role != role
  }

  /** `m` is the last message of `ms` with role `role`. */
  ghost predicate IsLastOfRole(ms: seq<Message>, role: Role, m: Message) {
    exists i :: 0 <= i < |ms| && ms[i] == m && m.role == role
      && forall j :: i < j < |ms| ==> ms[j].role != role
  }

  /** `messages.filter((msg) => msg.role === "user")`. */
  function UserMessages(ms: seq<Message>): (r: seq<Message>)
    ensures forall k :: 0 <= k < |r| ==> r[k].role == User
    ensures r == [] <==> !HasRole(ms, User)
    ensures r != [] ==> IsFirstOfRole(ms, User, r[0])
  {
    if |ms| == 0 then []
    else
      var rest := UserMessages(ms[1..]);
      assert forall k :: 1 <= k < |ms| ==> ms[k] == ms[1..][k - 1];
      if ms[0].role == User then [ms[0]] + rest
      else
        assert rest != [] ==> IsFirstOfRole(ms, User, rest[0]) by {
          if rest != [] {
            var i :| 0 <= i < |ms[1..]| && ms[1..][i] == rest[0] && rest[0].role == User
                     && forall j :: 0 <= j < i ==> ms[1..][j].role != User;
            assert ms[i + 1] == rest[0];
            assert forall j :: 0 <= j < i + 1 ==> ms[j].role != User by {
              forall j | 0 <= j < i + 1 ensures ms[j].role != User {
                if j > 0 { assert ms[j] == ms[1..][j - 1]; }
              }
            }
          }
        }
        rest
  }

  /**
   * The session title: the first 50 characters of the text, with "..." appended
   * exactly when the text is longer than that.
   */
  function Title(content: string): (t: string)
    ensures |t| == if |content| > TitleLength then TitleLength + 3 else |content|
    ensures |content| <= TitleLength ==> t == content
    ensures |content| > TitleLength ==> t[..TitleLength] == content[..TitleLength] && t[TitleLength..] == "..."
  {
    var cut := if |content| < TitleLength then |content| else TitleLength;
    content[..cut] + (if |content| > TitleLength then "..." else "")
  }

  /**
   * `saveCurrentSession`'s decision: nothing without a session id, with at most one
   * message, or without a user message; otherwise the record to upsert under the
   * current session id.
   */
  function SessionToSave(sessionId: Option<string>, messages: seq<Message>): Option<(string, SessionData)> {
    if !IsSet(sessionId) || |messages| <= 1 then None
    else
      var users := UserMessages(messages);
      if |users| == 0 then None
      else Some((sessionId.value, SessionData(messages, Title(users[0].content))))
  }

  /** Both directions of the save guards, and what a saved session carries. */
  lemma SessionToSaveSpec(sessionId: Option<string>, messages: seq<Message>)
    ensures SessionToSave(sessionId, messages).None?
            <==> !IsSet(sessionId) || |messages| <= 1 || !HasRole(messages, User)
    ensures SessionToSave(sessionId, messages).Some? ==>
              var (id, data) := SessionToSave(sessionId, messages).value;
              id == sessionId.value && id != "" && data.messages == messages
              && exists m :: IsFirstOfRole(messages, User, m) && data.title == Title(m.content)
  {
    if SessionToSave(sessionId, messages).Some? {
      var users := UserMessages(messages);
      assert IsFirstOfRole(messages, User, users[0]);
    }
  }

  /** `messages.slice(-5)`: the last (at most) five messages. */
  function Context(messages: seq<Message>): (r: seq<Message>)
    ensures |r| == if |messages| < ContextLength then |messages| else ContextLength
    ensures messages == messages[..|messages| - |r|] + r
  {
    var n := if |messages| < ContextLength then |messages| else ContextLength;
    messages[|messages| - n..]
  }

  /** `[...ms].reverse().find((msg) => msg.role === role)`. */
  function LastOfRole(ms: seq<Message>, role: Role): (r: Option<Message>)
    ensures r.None? <==> !HasRole(ms, role)
    ensures r.Some? ==> IsLastOfRole(ms, role, r.value)
  {
    if |ms| == 0 then None
    else if ms[|ms| - 1].role == role then Some(ms[|ms| - 1])
    else
      var r := LastOfRole(ms[..|ms| - 1], role);
      LastOfRoleStep(ms, role, r);
      r
  }

  /** Passing over a last message of another role keeps the answer of the rest. */
  lemma LastOfRoleStep(ms: seq<Message>, role: Role, r: Option<Message>)
    requires |ms| > 0 && ms[|ms| - 1].role != role
    requires r.None? <==> !HasRole(ms[..|ms| - 1], role)
    requires r.Some? ==> IsLastOfRole(ms[..|ms| - 1], role, r.value)
    ensures r.None? <==> !HasRole(ms, role)
    ensures r.Some? ==> IsLastOfRole(ms, role, r.value)
  {
    var init := ms[..|ms| - 1];
    if HasRole(ms, role) {
      var k :| 0 <= k < |ms| && ms[k].role == role;
      assert init[k] == ms[k];
    }
    if HasRole(init, role) {
      var k :| 0 <= k < |init| && init[k].role == role;
      assert ms[k] == init[k];
    }
    if r.Some? {
      var i :| 0 <= i < |init| && init[i] == r.value && r.value.role == role
               && forall j :: i < j < |init| ==> init[j].role != role;
      assert ms[i] == r.value;
      assert forall j :: i < j < |ms| ==> ms[j].role != role by {
        forall j | i < j < |ms| ensures ms[j].role != role {
          if j < |ms| - 1 { assert ms[j] == init[j]; }
        }
      }
    }
  }

  /** What `onHistoryClick` receives when a session is opened. */
  datatype Notice = Notice(prompt: string, response: string, timestamp: nat)

  /**
   * The notification of `loadChatSession`: only with a listener, at least two messages
   * and both a user and an assistant message, built from the last of each.
   */
  function SessionNotice(session: ChatSession, listening: bool): (r: Option<Notice>)
    ensures r.Some? <==> listening && |session.payload.messages| >= 2
                         && HasRole(session.payload.messages, User)
                         && HasRole(session.payload.messages, Assistant)
    ensures r.Some? ==> r.value.timestamp == session.timestamp
    ensures r.Some? ==> exists u :: IsLastOfRole(session.payload.messages, User, u) && r.value.prompt == u.content
    ensures r.Some? ==> exists a :: IsLastOfRole(session.payload.messages, Assistant, a) && r.value.response == a.content
  {
    var ms := session.payload.messages;
    if !listening || |ms| < 2 then None
    else
      var u := LastOfRole(ms, User);
      var a := LastOfRole(ms, Assistant);
      if u.Some? && a.Some? then Some(Notice(u.value.content, a.value.content, session.timestamp))
      else None
  }

  /** The assistant's text: `data.response || "No response."`. */
  function ReplyText(response: string): (t: string)
    ensures t != ""
    ensures response != "" ==> t == response
  {
    if response == "" then NoResponseText else response
  }

  // ---------------------------------------------------------------------------
  // Stored form of a session's fields.

  function EncodeRole(r: Role): string {
    if r == User then "u" else "a"
  }

  function ParseRole(s: string): Option<(Role, string)> {
    if |s| == 0 then None
    else if s[0] == 'u' then Some((User, s[1..]))
    else if s[0] == 'a' then Some((Assistant, s[1..]))
    else None
  }

  function EncodeMessage(m: Message): string {
    Codec.EncodeStr(m.id) + Codec.EncodeStr(m.content) + EncodeRole(m.role) + Codec.EncodeNat(m.timestamp)
  }

  function ParseMessage(s: string): Option<(Message, string)> {
    match Codec.ParseStr(s)
    case None => None
    case Some((id, s1)) =>
      match Codec.ParseStr(s1)
      case None => None
      case Some((content, s2)) =>
        match ParseRole(s2)
        case None => None
        case Some((role, s3)) =>
          match Codec.ParseNat(s3)
          case None => None
          case Some((ts, s4)) => Some((Message(id, content, role, ts), s4))
  }

  lemma MessageRoundTrips()
    ensures Codec.RoundTrips(EncodeMessage, ParseMessage)
  {
    forall m: Message, rest: string ensures ParseMessage(EncodeMessage(m) + rest) == Some((m, rest)) {
      var s3 := Codec.EncodeNat(m.timestamp) + rest;
      var s2 := EncodeRole(m.role) + s3;
      var s1 := Codec.EncodeStr(m.content) + s2;
      assert EncodeMessage(m) + rest == Codec.EncodeStr(m.id) + s1;
      Codec.ParseEncodeStr(m.id, s1);
      Codec.ParseEncodeStr(m.content, s2);
      assert ParseRole(s2) == Some((m.role, s3));
      Codec.ParseEncodeNat(m.timestamp, rest);
    }
  }

  function EncodeSession(d: SessionData): string {
    Codec.EncodeSeq(d.messages, EncodeMessage) + Codec.EncodeStr(d.title)
  }

  function ParseSession(s: string): Option<(SessionData, string)> {
    match Codec.ParseSeq(s, ParseMessage)
    case None => None
    case Some((ms, t)) =>
      match Codec.ParseStr(t)
      case None => None
      case Some((title, u)) => Some((SessionData(ms, title), u))
  }

  lemma SessionRoundTrips()
    ensures Codec.RoundTrips(EncodeSession, ParseSession)
  {
    MessageRoundTrips();
    forall d: SessionData, rest: string ensures ParseSession(EncodeSession(d) + rest) == Some((d, rest)) {
      var t := Codec.EncodeStr(d.title) + rest;
      assert EncodeSession(d) + rest == Codec.EncodeSeq(d.messages, EncodeMessage) + t;
      Codec.ParseEncodeSeq(d.messages, EncodeMessage, ParseMessage, t);
      Codec.ParseEncodeStr(d.title, rest);
    }
  }

  // ---------------------------------------------------------------------------
  // Properties of saving the same session twice.

  lemma {:induction false} CountIdUnique<T>(xs: seq<History.Record<T>>, id: string)
    requires History.UniqueIds(xs) && |xs| > 0 && xs[0].id == id
    ensures History.CountId(xs, id) == 1
  {
    assert !History.HasId(xs[1..], id) by {
      forall k | 0 <= k < |xs| - 1 ensures xs[1..][k].id != id {
        assert xs[1..][k] == xs[k + 1];
      }
    }
  }

  /**
   * Saving the same session id twice leaves one history entry for it, and the second
   * save does not lengthen the list.
   */
  lemma RepeatedSaveIsOneEntry(xs: seq<ChatSession>, first: ChatSession, second: ChatSession, maxItems: nat)
    requires History.UniqueIds(xs) && maxItems >= 1 && first.id == second.id
    ensures var once := History.Upsert(xs, first, maxItems);
            var twice := History.Upsert(once, second, maxItems);
            |twice| == |once| && twice[0] == second && History.CountId(twice, second.id) == 1
  {
    var once := History.Upsert(xs, first, maxItems);
    History.UpsertBounded(xs, first, maxItems);
    History.UpsertKeepsUnique(xs, first, maxItems);
    assert History.HasId(once, second.id) by {
      assert once[0].id == second.id;
    }
    var twice := History.Upsert(once, second, maxItems);
    History.UpsertIsPromoteThenCap(once, second, maxItems);
    History.RemoveAtFound(once, 0);
    History.FindIndexFirst(once, 0);
    History.UpsertBounded(once, second, maxItems);
    History.UpsertKeepsUnique(once, second, maxItems);
    CountIdUnique(twice, second.id);
  }

  /** A conversation with a session id that has just received a reply is always saved. */
  lemma ExchangeIsSaved(sessionId: Option<string>, ms: seq<Message>, reply: Message)
    requires IsSet(sessionId) && |ms| > 0 && ms[|ms| - 1].role == User
    ensures SessionToSave(sessionId, ms + [reply]).Some?
    ensures SessionToSave(sessionId, ms + [reply]).value.0 == sessionId.value
  {
    var all := ms + [reply];
    assert all[|ms| - 1].role == User;
    assert HasRole(all, User);
  }

  /**
   * The first exchange of a new conversation: the stale save sees no session id and
   * only the welcome message, so it saves nothing, while the conversation after the
   * exchange is one the guards would save.
   */
  lemma FirstExchangeLost(now: nat, input: string, response: string)
    ensures SessionToSave(None, [Welcome(now)]).None?
    ensures var after := [Welcome(now), Message(Codec.Digits(now), input, User, now),
                          Message(Codec.Digits(now + 1), ReplyText(response), Assistant, now)];
            SessionToSave(Some(Codec.Digits(now)), after).Some?
  {
    var after := [Welcome(now), Message(Codec.Digits(now), input, User, now),
                  Message(Codec.Digits(now + 1), ReplyText(response), Assistant, now)];
    assert after[1].role == User;
    SessionToSaveSpec(Some(Codec.Digits(now)), after);
  }

  // ---------------------------------------------------------------------------
  // The component's state.

  /** The chat tool: its conversation, its session id and its history store. */
  class Chat {
    var messages: seq<Message>
    var currentSessionId: Option<string>
    const sessions: History.Store<SessionData>

    ghost predicate Valid()
      reads this, sessions
    {
      sessions.maxItems == HistoryCap && sessions.key == HistoryKey
      && sessions.encodePayload == EncodeSession && sessions.parsePayload == ParseSession
      && sessions.CodecSound()
    }

    /** Mounting the tool: the welcome message, no session, and an unloaded history. */
    constructor (storage: map<string, string>, now: nat)
      ensures Valid() && fresh(sessions)
      ensures messages == [Welcome(now)] && currentSessionId == None
      ensures sessions.items == [] && !sessions.loaded && sessions.storage == storage
    {
      messages := [Welcome(now)];
      currentSessionId := None;
      sessions := new History.Store(HistoryKey, HistoryCap, EncodeSession, ParseSession, storage);
      SessionRoundTrips();
    }

    /** `saveCurrentSession`: upsert the conversation under its session id when the guards allow. */
    method SaveCurrentSession(now: nat)
      requires Valid()
      modifies sessions
      ensures Valid()
      ensures SessionToSave(currentSessionId, messages).None? ==> unchanged(sessions)
      ensures SessionToSave(currentSessionId, messages).Some? ==>
                var (id, data) := SessionToSave(currentSessionId, messages).value;
                sessions.items == History.Upsert(old(sessions.items), History.Record(id, now, data), HistoryCap)
                && sessions.loaded == old(sessions.loaded)
                && sessions.storage == History.Persisted(old(sessions.storage), HistoryKey, sessions.loaded,
                                                         sessions.items, EncodeSession)
    {
      SaveSession(currentSessionId, messages, now);
    }

    /**
     * The body of `saveCurrentSession` run on the session id and messages it sees,
     * which for a closure created at an earlier render are the values of that render.
     */
    method SaveSession(sessionId: Option<string>, ms: seq<Message>, now: nat)
      requires Valid()
      modifies sessions
      ensures Valid()
      ensures SessionToSave(sessionId, ms).None? ==> unchanged(sessions)
      ensures SessionToSave(sessionId, ms).Some? ==>
                var (id, data) := SessionToSave(sessionId, ms).value;
                sessions.items == History.Upsert(old(sessions.items), History.Record(id, now, data), HistoryCap)
                && sessions.loaded == old(sessions.loaded)
                && sessions.storage == History.Persisted(old(sessions.storage), HistoryKey, sessions.loaded,
                                                         sessions.items, EncodeSession)
    {
      var toSave := SessionToSave(sessionId, ms);
      if toSave.Some? {
        var (id, data) := toSave.value;
        assert History.ResolveId(Some(id), now) == id;
        sessions.Add(data, Some(id), now);
      }
    }

    /**
     * The state updates of `handleSendMessage` for a non-blank input: keep or create the
     * session id, append the user message and, when there is a reply, the assistant's.
     */
    method AppendExchange(input: string, now: nat, reply: Option<string>)
      modifies this
      ensures currentSessionId == (if IsSet(old(currentSessionId)) then old(currentSessionId)
                                   else Some(Codec.Digits(now)))
      ensures reply.None? ==> messages == old(messages) + [Message(Codec.Digits(now), input, User, now)]
      ensures reply.Some? ==> messages == old(messages) + [Message(Codec.Digits(now), input, User, now),
                                                           Message(Codec.Digits(now + 1), ReplyText(reply.value), Assistant, now)]
    {
      if !IsSet(currentSessionId) {
        currentSessionId := Some(Codec.Digits(now));
      }
      var userMessage := Message(Codec.Digits(now), input, User, now);
      messages := messages + [userMessage];
      if reply.Some? {
        var assistantMessage := Message(Codec.Digits(now + 1), ReplyText(reply.value), Assistant, now);
        messages := messages + [assistantMessage];
      }
    }

    /**
     * `handleSendMessage` with the request's outcome given: `reply` is None when the
     * request fails, otherwise the reply's `response` text. Returns the context sent
     * with the request, None when a blank input sends nothing. After a reply the
     * conversation including the new exchange is saved.
     */
    method SendMessage(input: string, now: nat, reply: Option<string>) returns (context: Option<seq<Message>>)
      requires Valid()
      modifies this, sessions
      ensures Valid()
      ensures Text.Trim(input) == "" ==> context.None? && unchanged(this) && unchanged(sessions)
      ensures Text.Trim(input) != "" ==>
                context == Some(Context(old(messages)))
                && currentSessionId == (if IsSet(old(currentSessionId)) then old(currentSessionId)
                                        else Some(Codec.Digits(now)))
      ensures Text.Trim(input) != "" && reply.None? ==>
                messages == old(messages) + [Message(Codec.Digits(now), input, User, now)] && unchanged(sessions)
      ensures Text.Trim(input) != "" && reply.Some? ==>
                messages == old(messages) + [Message(Codec.Digits(now), input, User, now),
                                             Message(Codec.Digits(now + 1), ReplyText(reply.value), Assistant, now)]
                && SessionToSave(currentSessionId, messages).Some?
                && sessions.items == History.Upsert(old(sessions.items),
                     History.Record(currentSessionId.value, now, SessionToSave(currentSessionId, messages).value.1),
                     HistoryCap)
                && sessions.loaded == old(sessions.loaded)
                && sessions.storage == History.Persisted(old(sessions.storage), HistoryKey, sessions.loaded,
                                                         sessions.items, EncodeSession)
    {
      if Text.Trim(input) == "" {
        return None;
      }
      context := Some(Context(messages));
      ghost var before := messages;
      AppendExchange(input, now, reply);
      if reply.Some? {
        ExchangeIsSaved(currentSessionId, before + [Message(Codec.Digits(now), input, User, now)],
                        Message(Codec.Digits(now + 1), ReplyText(reply.value), Assistant, now));
        assert messages == before + [Message(Codec.Digits(now), input, User, now)]
                          + [Message(Codec.Digits(now + 1), ReplyText(reply.value), Assistant, now)];
        SaveCurrentSession(now);
      }
    }

    /**
     * `handleSendMessage` as written: the `saveCurrentSession` it calls after the reply
     * belongs to the render the send started from, so it sees the session id and the
     * messages from before the send. The new exchange is not saved, and the first
     * exchange of a new conversation saves nothing at all.
     */
    method SendMessageAsWritten(input: string, now: nat, reply: Option<string>) returns (context: Option<seq<Message>>)
      requires Valid()
      modifies this, sessions
      ensures Valid()
      ensures Text.Trim(input) == "" ==> context.None? && unchanged(this) && unchanged(sessions)
      ensures Text.Trim(input) != "" ==>
                context == Some(Context(old(messages)))
                && currentSessionId == (if IsSet(old(currentSessionId)) then old(currentSessionId)
                                        else Some(Codec.Digits(now)))
      ensures Text.Trim(input) != "" && reply.None? ==>
                messages == old(messages) + [Message(Codec.Digits(now), input, User, now)] && unchanged(sessions)
      ensures Text.Trim(input) != "" && reply.Some? ==>
                messages == old(messages) + [Message(Codec.Digits(now), input, User, now),
                                             Message(Codec.Digits(now + 1), ReplyText(reply.value), Assistant, now)]
      ensures Text.Trim(input) != "" && reply.Some? && SessionToSave(old(currentSessionId), old(messages)).None? ==>
                unchanged(sessions)
      ensures Text.Trim(input) != "" && reply.Some? && SessionToSave(old(currentSessionId), old(messages)).Some? ==>
                sessions.items == History.Upsert(old(sessions.items),
                  History.Record(old(currentSessionId).value, now,
                                 SessionToSave(old(currentSessionId), old(messages)).value.1),
                  HistoryCap)
                && sessions.loaded == old(sessions.loaded)
                && sessions.storage == History.Persisted(old(sessions.storage), HistoryKey, sessions.loaded,
                                                         sessions.items, EncodeSession)
    {
      if Text.Trim(input) == "" {
        return None;
      }
      var staleId := currentSessionId;
      var staleMessages := messages;
      context := Some(Context(messages));
      AppendExchange(input, now, reply);
      if reply.Some? {
        SaveSession(staleId, staleMessages, now);
      }
    }

    /**
     * `loadChatSession`: save the open conversation when it has content, then show the
     * chosen one and take over its id; returns what the listener is told, if anything.
     */
    method LoadSession(session: ChatSession, listening: bool, now: nat) returns (notice: Option<Notice>)
      requires Valid()
      modifies this, sessions
      ensures Valid()
      ensures messages == session.payload.messages && currentSessionId == Some(session.id)
      ensures notice == SessionNotice(session, listening)
      ensures SessionToSave(old(currentSessionId), old(messages)).None? ==> unchanged(sessions)
      ensures SessionToSave(old(currentSessionId), old(messages)).Some? ==>
                var (id, data) := SessionToSave(old(currentSessionId), old(messages)).value;
                sessions.items == History.Upsert(old(sessions.items), History.Record(id, now, data), HistoryCap)
                && sessions.loaded == old(sessions.loaded)
                && sessions.storage == History.Persisted(old(sessions.storage), HistoryKey, sessions.loaded,
                                                         sessions.items, EncodeSession)
    {
      if IsSet(currentSessionId) && |messages| > 1 && HasRole(messages, User) {
        SaveCurrentSession(now);
      }
      messages := session.payload.messages;
      currentSessionId := Some(session.id);
      notice := SessionNotice(session, listening);
    }

    /** `startNewChat`: save the open conversation when it has content, then start over. */
    method StartNewChat(now: nat)
      requires Valid()
      modifies this, sessions
      ensures Valid()
      ensures messages == [Welcome(now)] && currentSessionId == None
      ensures SessionToSave(old(currentSessionId), old(messages)).None? ==> unchanged(sessions)
      ensures SessionToSave(old(currentSessionId), old(messages)).Some? ==>
                var (id, data) := SessionToSave(old(currentSessionId), old(messages)).value;
                sessions.items == History.Upsert(old(sessions.items), History.Record(id, now, data), HistoryCap)
                && sessions.loaded == old(sessions.loaded)
                && sessions.storage == History.Persisted(old(sessions.storage), HistoryKey, sessions.loaded,
                                                         sessions.items, EncodeSession)
    {
      if IsSet(currentSessionId) && |messages| > 1 && HasRole(messages, User) {
        SaveCurrentSession(now);
      }
      messages := [Welcome(now)];
      currentSessionId := None;
    }
  }
}
