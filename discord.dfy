/**
  The notifier (`DiscordNotifier` in src/discord.js): the reminder list is cut
  into chunks of at most 20, each chunk becomes one embed posted to the
  webhook, one post after another with a pause between posts; an empty list
  posts a single grey "nothing today" embed.

  The HTTP exchange is not modelled: the webhook's answer to the k-th post of a
  call is given by the parameter `respond`, and the notifier keeps a log of
  what it posted and when it paused.
 */
module Discord {
  import opened Wrappers
  import opened Text

  const MaxFieldsPerEmbed: nat := 20
  const NormalColor: int := 0x5865F2
  const EmptyColor: int := 0x808080
  const NoRemindersText: string := "本日のリマインド事項はありません"
  const FooterText: string := "Daily Reminder System"
  const Username: string := "Daily Reminder Bot"
  /** Milliseconds waited between two posts. */
  const InterMessageDelay: nat := 1000

  datatype EmbedField = EmbedField(name: string, value: string, inline: bool)
  /** An embed carries either a description (no reminders) or its fields. */
  datatype Body = Description(text: string) | Fields(fields: seq<EmbedField>)
  datatype Embed = Embed(title: string, color: int, body: Body, footer: string)
  datatype Payload = Payload(embeds: seq<Embed>, username: string)
  /**
    The webhook's answer to one post: its status and body text, or the error
    that `fetch` or `response.text()` raised instead (a network failure, say).
   */
  datatype Response = Response(status: int, text: string) | Failed(message: string)
  /** What the notifier attempted: posts, and the pauses between them. */
  datatype Event = Post(payload: Payload) | Pause(ms: nat)
  datatype Delivery = Delivered | Rejected(message: string)
  datatype Notification = Notification(success: bool, messageCount: nat)

  // ---------------------------------------------------------------------------
  // Chunks
  // ---------------------------------------------------------------------------

  /** Consecutive slices of 20 items, the last one shorter if need be. */
  function Chunks<T>(s: seq<T>): seq<seq<T>>
    decreases |s|
  {
    if |s| == 0 then []
    else if |s| <= MaxFieldsPerEmbed then [s]
    else [s[..MaxFieldsPerEmbed]] + Chunks(s[MaxFieldsPerEmbed..])
  }

  function Flatten<T>(chunks: seq<seq<T>>): seq<T> {
    if chunks == [] then [] else chunks[0] + Flatten(chunks[1..])
  }

  /**
    The chunks put back together are the input; there are ceil(n / 20) of
    them; all but the last hold exactly 20 items and the last holds 1 to 20.
   */
  lemma {:induction false} ChunksProperties<T>(s: seq<T>)
    ensures Flatten(Chunks(s)) == s
    ensures |Chunks(s)| == (|s| + MaxFieldsPerEmbed - 1) / MaxFieldsPerEmbed
    ensures forall k :: 0 <= k < |Chunks(s)| - 1 ==> |Chunks(s)[k]| == MaxFieldsPerEmbed
    ensures |Chunks(s)| > 0 ==> 1 <= |Chunks(s)[|Chunks(s)| - 1]| <= MaxFieldsPerEmbed
    decreases |s|
  {
    if |s| > MaxFieldsPerEmbed {
      var rest := s[MaxFieldsPerEmbed..];
      ChunksProperties(rest);
      var cs := Chunks(s);
      assert cs == [s[..MaxFieldsPerEmbed]] + Chunks(rest);
      assert cs[1..] == Chunks(rest);
      assert s == s[..MaxFieldsPerEmbed] + rest;
      forall k | 0 <= k < |cs| - 1
        ensures |cs[k]| == MaxFieldsPerEmbed
      {
        if k > 0 {
          assert cs[k] == Chunks(rest)[k - 1];
        }
      }
    } else if |s| > 0 {
      assert Chunks(s)[1..] == [];
    }
  }

  // ---------------------------------------------------------------------------
  // Embeds and payloads
  // ---------------------------------------------------------------------------

  function BaseTitle(date: string): string {
    "\U{1F5D3}\U{FE0F} 本日のリマインダー (" + date + ")"
  }

  /** The name of the field at 1-based position `n` of an embed. */
  function FieldLabel(n: nat): string {
    NatToString(n) + ". リマインダー"
  }

  /** `createEmbed`: the grey description embed, or one numbered field per reminder. */
  function CreateEmbed(date: string, reminders: seq<string>, isNoReminders: bool): Embed {
    if isNoReminders then
      Embed(BaseTitle(date), EmptyColor, Description(NoRemindersText), FooterText)
    else
      Embed(BaseTitle(date), NormalColor,
            Fields(seq(|reminders|, i requires 0 <= i < |reminders| => EmbedField(FieldLabel(i + 1), reminders[i], false))),
            FooterText)
  }

  function PageSuffix(i: nat, total: nat): string {
    " (" + NatToString(i + 1) + "/" + NatToString(total) + ")"
  }

  /** The embed for chunk `i`, titled with its position when there are several chunks. */
  function ChunkEmbed(date: string, chunks: seq<seq<string>>, i: nat): Embed
    requires i < |chunks|
  {
    var embed := CreateEmbed(date, chunks[i], false);
    if |chunks| > 1 then embed.(title := embed.title + PageSuffix(i, |chunks|)) else embed
  }

  /** One payload per chunk, each carrying that chunk's embed. */
  function ChunkPayloads(date: string, chunks: seq<seq<string>>): seq<Payload> {
    seq(|chunks|, i requires 0 <= i < |chunks| => Payload([ChunkEmbed(date, chunks, i)], Username))
  }

  /** Everything one call of `sendNotification` posts, in order, when every post succeeds. */
  function Payloads(date: string, reminders: seq<string>): seq<Payload> {
    if |reminders| == 0 then [Payload([CreateEmbed(date, [], true)], Username)]
    else ChunkPayloads(date, Chunks(reminders))
  }

  /** The reminder texts a payload carries, field by field. */
  function FieldValues(p: Payload): seq<string> {
    if |p.embeds| == 0 || p.embeds[0].body.Description? then []
    else
      var fields := p.embeds[0].body.fields;
      seq(|fields|, i requires 0 <= i < |fields| => fields[i].value)
  }

  function AllFieldValues(ps: seq<Payload>): seq<string> {
    if ps == [] then [] else FieldValues(ps[0]) + AllFieldValues(ps[1..])
  }

  /** An empty list is announced by exactly one grey payload saying there is nothing today. */
  lemma EmptyListPayload(date: string)
    ensures Payloads(date, []) == [Payload([Embed(BaseTitle(date), EmptyColor, Description(NoRemindersText), FooterText)], Username)]
  {
  }

  /** One payload per chunk of 20, and one payload for an empty list. */
  lemma PayloadCount(date: string, reminders: seq<string>)
    ensures |Payloads(date, reminders)| ==
      if |reminders| == 0 then 1 else (|reminders| + MaxFieldsPerEmbed - 1) / MaxFieldsPerEmbed
  {
    ChunksProperties(reminders);
  }

  lemma {:induction false} AllFieldValuesOfChunks(date: string, chunks: seq<seq<string>>, ps: seq<Payload>, from: nat)
    requires from <= |chunks| && |ps| == |chunks| - from
    requires forall i :: 0 <= i < |ps| ==> ps[i] == Payload([ChunkEmbed(date, chunks, from + i)], Username)
    ensures AllFieldValues(ps) == Flatten(chunks[from..])
    decreases |ps|
  {
    if ps != [] {
      assert FieldValues(ps[0]) == chunks[from];
      AllFieldValuesOfChunks(date, chunks, ps[1..], from + 1);
      assert chunks[from..][1..] == chunks[from + 1..];
    } else {
      assert chunks[from..] == [];
    }
  }

  /**
    Every reminder is delivered exactly once and in order: reading the field
    values of the payloads one after another gives back the reminder list.
   */
  lemma PayloadsCarryEveryReminder(date: string, reminders: seq<string>)
    ensures AllFieldValues(Payloads(date, reminders)) == reminders
  {
    var ps := Payloads(date, reminders);
    if |reminders| == 0 {
      assert ps[1..] == [];
    } else {
      var chunks := Chunks(reminders);
      ChunksProperties(reminders);
      AllFieldValuesOfChunks(date, chunks, ps, 0);
      assert chunks[0..] == chunks;
    }
  }

  /**
    Each payload of a non-empty list carries one chunk with fields numbered
    from 1 and is titled with its position `(i/total)` only when there are
    several payloads.
   */
  lemma PayloadShape(date: string, reminders: seq<string>, i: nat)
    requires |reminders| > 0 && i < |Payloads(date, reminders)|
    ensures var ps := Payloads(date, reminders);
      |ps[i].embeds| == 1 && ps[i].username == Username
      && var e := ps[i].embeds[0];
      && e.color == NormalColor
      && e.title == BaseTitle(date) + (if |ps| > 1 then PageSuffix(i, |ps|) else "")
      && e.body.Fields?
      && 1 <= |e.body.fields| <= MaxFieldsPerEmbed
      && forall j :: 0 <= j < |e.body.fields| ==> e.body.fields[j].name == FieldLabel(j + 1) && !e.body.fields[j].inline
  {
    ChunksProperties(reminders);
  }

  /** Field labels name their position: different positions, different labels. */
  lemma FieldLabelInjective(a: nat, b: nat)
    requires FieldLabel(a) == FieldLabel(b)
    ensures a == b
  {
    var sa, sb := NatToString(a), NatToString(b);
    assert |sa| == |sb|;
    assert sa == FieldLabel(a)[..|sa|];
    assert sb == FieldLabel(b)[..|sb|];
    NatToStringRoundTrip(a);
    NatToStringRoundTrip(b);
  }

  // ---------------------------------------------------------------------------
  // The sequence of sends
  // ---------------------------------------------------------------------------

  predicate IsOk(status: int) {
    200 <= status <= 299
  }

  /** The webhook took the post: it answered with a status in 200..299. */
  predicate Accepted(response: Response) {
    response.Response? && IsOk(response.status)
  }

  /** The error `sendWebhook` raises for a status outside 200..299. */
  function ApiErrorMessage(response: Response): string
    requires response.Response?
  {
    "Discord API エラー (" + IntToString(response.status) + "): " + response.text
  }

  /** The error a post that was not accepted ends in: the exchange's own error, or the API error. */
  function WebhookError(response: Response): string
    requires !Accepted(response)
  {
    if response.Failed? then response.message else ApiErrorMessage(response)
  }

  /** The error `sendNotification` re-raises around it. */
  function SendFailure(message: string): (m: string)
    ensures IsPrefix("Discord", m)
    ensures |m| > |message| && m[|m| - |message|..] == message
  {
    "Discord通知の送信に失敗しました: " + message
  }

  /** The first of the first `n` posts the webhook refuses, if any. */
  function FirstRejection(respond: nat -> Response, n: nat): (r: Option<nat>)
    ensures r.None? ==> forall j :: 0 <= j < n ==> Accepted(respond(j))
    ensures r.Some? ==>
      r.value < n && !Accepted(respond(r.value)) && forall j :: 0 <= j < r.value ==> Accepted(respond(j))
    decreases n
  {
    if n == 0 then None
    else match FirstRejection(respond, n - 1)
      case Some(k) => Some(k)
      case None => if Accepted(respond(n - 1)) then None else Some(n - 1)
  }

  /**
    The log of the first `n` successful posts: each post followed by the pause,
    except the post of the last payload.
   */
  function Trace(ps: seq<Payload>, n: nat): seq<Event>
    requires n <= |ps|
  {
    if n == 0 then []
    else Trace(ps, n - 1) + [Post(ps[n - 1])] + (if n < |ps| then [Pause(InterMessageDelay)] else [])
  }

  function Posts(events: seq<Event>): seq<Payload> {
    if events == [] then []
    else (if events[0].Post? then [events[0].payload] else []) + Posts(events[1..])
  }

  function PauseCount(events: seq<Event>): nat {
    if events == [] then 0
    else (if events[0].Pause? then 1 else 0) + PauseCount(events[1..])
  }

  lemma {:induction false} PostsAppend(a: seq<Event>, b: seq<Event>)
    ensures Posts(a + b) == Posts(a) + Posts(b)
    ensures PauseCount(a + b) == PauseCount(a) + PauseCount(b)
    decreases |a|
  {
    if a != [] {
      assert (a + b)[1..] == a[1..] + b;
      PostsAppend(a[1..], b);
    } else {
      assert a + b == b;
    }
  }

  lemma OneEvent(e: Event)
    ensures Posts([e]) == if e.Post? then [e.payload] else []
    ensures PauseCount([e]) == if e.Pause? then 1 else 0
  {
    assert [e][1..] == [];
  }

  /** The events `Trace` adds for post `n - 1`: the post, then the pause unless it was the last. */
  lemma TraceLast(ps: seq<Payload>, n: nat)
    requires 1 <= n <= |ps|
    ensures Posts(Trace(ps, n)) == Posts(Trace(ps, n - 1)) + [ps[n - 1]]
    ensures PauseCount(Trace(ps, n)) == PauseCount(Trace(ps, n - 1)) + (if n < |ps| then 1 else 0)
  {
    var post := [Post(ps[n - 1])];
    OneEvent(Post(ps[n - 1]));
    PostsAppend(Trace(ps, n - 1), post);
    if n < |ps| {
      var pause := [Pause(InterMessageDelay)];
      OneEvent(Pause(InterMessageDelay));
      PostsAppend(Trace(ps, n - 1) + post, pause);
    } else {
      assert Trace(ps, n) == Trace(ps, n - 1) + post;
    }
  }

  /**
    A run in which all posts succeed posts every payload once, in order, with a
    pause between consecutive posts and none after the last.
   */
  lemma {:induction false} TraceShape(ps: seq<Payload>, n: nat)
    requires 1 <= n <= |ps|
    ensures Posts(Trace(ps, n)) == ps[..n]
    ensures PauseCount(Trace(ps, n)) == if n < |ps| then n else n - 1
    ensures n == |ps| ==> Trace(ps, n)[|Trace(ps, n)| - 1] == Post(ps[n - 1])
    decreases n
  {
    TraceLast(ps, n);
    if n > 1 {
      TraceShape(ps, n - 1);
    } else {
      assert Trace(ps, 0) == [];
      OneEvent(Post(ps[0]));
    }
    assert ps[..n] == ps[..n - 1] + [ps[n - 1]];
  }

  /**
    Where each event of a run whose posts all succeed sits: post `j` at
    position `2 * j`, and right after every post but the last, the pause.
   */
  lemma {:induction false} TraceLayout(ps: seq<Payload>, n: nat)
    requires n <= |ps|
    ensures |Trace(ps, n)| == if n == |ps| && n > 0 then 2 * n - 1 else 2 * n
    ensures forall j :: 0 <= j < n ==> Trace(ps, n)[2 * j] == Post(ps[j])
    ensures forall j :: 0 <= j < n && j + 1 < |ps| ==> Trace(ps, n)[2 * j + 1] == Pause(InterMessageDelay)
    decreases n
  {
    if n > 0 {
      TraceLayout(ps, n - 1);
      var prev := Trace(ps, n - 1);
      var t := Trace(ps, n);
      assert t == prev + [Post(ps[n - 1])] + (if n < |ps| then [Pause(InterMessageDelay)] else []);
      assert |prev| == 2 * (n - 1);
      forall j | 0 <= j < n
        ensures t[2 * j] == Post(ps[j])
      {
        if j < n - 1 {
          assert t[2 * j] == prev[2 * j];
        }
      }
      forall j | 0 <= j < n && j + 1 < |ps|
        ensures t[2 * j + 1] == Pause(InterMessageDelay)
      {
        if j < n - 1 {
          assert t[2 * j + 1] == prev[2 * j + 1];
        }
      }
    }
  }

  class DiscordNotifier {
    const webhookUrl: string
    const maxFieldsPerEmbed: nat := MaxFieldsPerEmbed
    /** Everything posted to the webhook and every pause taken, in order. */
    var log: seq<Event>

    constructor (webhookUrl: string)
      ensures this.webhookUrl == webhookUrl && log == []
    {
      this.webhookUrl := webhookUrl;
      log := [];
    }

    /** `splitReminders`: slices of `maxFieldsPerEmbed` items, taken from the front. */
    method SplitReminders(reminders: seq<string>) returns (chunks: seq<seq<string>>)
      ensures chunks == Chunks(reminders)
    {
      chunks := [];
      var i := 0;
      while i < |reminders|
        invariant 0 <= i
        invariant i <= |reminders| ==> chunks + Chunks(reminders[i..]) == Chunks(reminders)
        invariant i > |reminders| ==> chunks == Chunks(reminders)
      {
        var end := if i + maxFieldsPerEmbed < |reminders| then i + maxFieldsPerEmbed else |reminders|;
        ghost var rest := reminders[i..];
        if end < |reminders| {
          assert Chunks(rest) == [rest[..MaxFieldsPerEmbed]] + Chunks(rest[MaxFieldsPerEmbed..]);
          assert rest[..MaxFieldsPerEmbed] == reminders[i..end];
          assert rest[MaxFieldsPerEmbed..] == reminders[end..];
        } else {
          assert Chunks(rest) == [rest];
          assert rest == reminders[i..end];
          assert reminders[|reminders|..] == [];
        }
        chunks := chunks + [reminders[i..end]];
        i := i + maxFieldsPerEmbed;
      }
      assert reminders[|reminders|..] == [];
    }

    /** `sendWebhook`: one post, logged even when the exchange fails; a failed exchange or a status outside 200..299 is an error. */
    method SendWebhook(embeds: seq<Embed>, response: Response) returns (outcome: Delivery)
      modifies this
      ensures log == old(log) + [Post(Payload(embeds, Username))]
      ensures outcome == if Accepted(response) then Delivered else Rejected(WebhookError(response))
    {
      log := log + [Post(Payload(embeds, Username))];
      if response.Failed? {
        // `fetch` or `response.text()` rejected: its error propagates as it is
        outcome := Rejected(response.message);
        return;
      }
      if !IsOk(response.status) {
        outcome := Rejected(ApiErrorMessage(response));
        return;
      }
      if response.status == 429 {
        // The rate-limit branch: 429 is not a success status, so it was refused above.
        assert false;
      }
      outcome := Delivered;
    }

    /** The timed wait between two posts. */
    method Wait(ms: nat)
      modifies this
      ensures log == old(log) + [Pause(ms)]
    {
      log := log + [Pause(ms)];
    }

    /**
      `sendNotification`: posts the payloads one after another and stops at the
      first refused post, reporting the error; otherwise reports how many
      messages it sent.
     */
    method SendNotification(date: string, reminders: Option<seq<string>>, respond: nat -> Response)
      returns (result: Result<Notification, string>)
      modifies this
      ensures Sent(Payloads(date, if reminders.Some? then reminders.value else []), respond, result, old(log), log)
    {
      var list := if reminders.Some? then reminders.value else [];
      ghost var ps := Payloads(date, list);
      var posted: Result<Notification, string>;
      if |list| == 0 {
        var embed := CreateEmbed(date, [], true);
        var outcome := SendWebhook([embed], respond(0));
        TraceStep(ps, 0);
        RejectionStep(respond, 0);
        posted := if outcome.Rejected? then Err(outcome.message) else Ok(Notification(true, 1));
      } else {
        var reminderChunks := SplitReminders(list);
        posted := PostChunks(date, reminderChunks, respond);
      }
      // the `catch` around the whole send reports the error under the notifier's own message
      result := if posted.Err? then Err(SendFailure(posted.error)) else posted;
      PostedSent(ps, respond, posted, old(log), log);
    }

    /** The loop of `sendNotification`: one post per chunk, a pause between posts, stop at the first refusal. */
    method PostChunks(date: string, reminderChunks: seq<seq<string>>, respond: nat -> Response)
      returns (result: Result<Notification, string>)
      modifies this
      ensures Posted(ChunkPayloads(date, reminderChunks), respond, result, old(log), log)
    {
      ghost var ps := ChunkPayloads(date, reminderChunks);
      var messageCount := 0;
      for i := 0 to |reminderChunks|
        invariant messageCount == i
        invariant FirstRejection(respond, i) == None
        invariant log == old(log) + Trace(ps, i)
      {
        var chunk := reminderChunks[i];
        var embed := CreateEmbed(date, chunk, false);
        if |reminderChunks| > 1 {
          embed := embed.(title := embed.title + PageSuffix(i, |reminderChunks|));
        }
        assert ps[i] == Payload([embed], Username);
        ghost var before := log;
        var outcome := SendWebhook([embed], respond(i));
        RejectionStep(respond, i);
        if outcome.Rejected? {
          FirstRejectionStable(respond, i + 1, |ps|);
          result := Err(outcome.message);
          PostedRejected(ps, respond, i, result, old(log), log);
          return;
        }
        messageCount := messageCount + 1;
        if i < |reminderChunks| - 1 {
          Wait(InterMessageDelay);
        }
        TraceExtends(old(log), ps, i, before, log);
      }
      result := Ok(Notification(true, messageCount));
    }
  }

  /**
    What the posting loop leaves behind over payloads `ps`: every payload
    posted, with pauses between, and the message count; or, at the first
    refused post, the posts up to and including it and the webhook's error.
   */
  ghost predicate Posted(ps: seq<Payload>, respond: nat -> Response, result: Result<Notification, string>,
                         before: seq<Event>, after: seq<Event>)
  {
    match FirstRejection(respond, |ps|)
    case None =>
      result == Ok(Notification(true, |ps|)) && after == before + Trace(ps, |ps|)
    case Some(k) =>
      result == Err(WebhookError(respond(k))) && after == before + Trace(ps, k) + [Post(ps[k])]
  }

  /**
    The outcome of one `sendNotification` call: the same, with the error
    reported under the notifier's own message.
   */
  ghost predicate Sent(ps: seq<Payload>, respond: nat -> Response, result: Result<Notification, string>,
                       before: seq<Event>, after: seq<Event>)
  {
    match FirstRejection(respond, |ps|)
    case None =>
      result == Ok(Notification(true, |ps|)) && after == before + Trace(ps, |ps|)
    case Some(k) =>
      result == Err(SendFailure(WebhookError(respond(k)))) && after == before + Trace(ps, k) + [Post(ps[k])]
  }

  lemma PostedSent(ps: seq<Payload>, respond: nat -> Response, posted: Result<Notification, string>,
                   before: seq<Event>, after: seq<Event>)
    requires Posted(ps, respond, posted, before, after)
    ensures Sent(ps, respond, if posted.Err? then Err(SendFailure(posted.error)) else posted, before, after)
  {
  }

  lemma PostedRejected(ps: seq<Payload>, respond: nat -> Response, k: nat, result: Result<Notification, string>,
                       before: seq<Event>, after: seq<Event>)
    requires k < |ps| && FirstRejection(respond, |ps|) == Some(k)
    requires result == Err(WebhookError(respond(k))) && after == before + Trace(ps, k) + [Post(ps[k])]
    ensures Posted(ps, respond, result, before, after)
  {
  }

  lemma TraceExtends(start: seq<Event>, ps: seq<Payload>, i: nat, before: seq<Event>, after: seq<Event>)
    requires i < |ps| && before == start + Trace(ps, i)
    requires after == before + [Post(ps[i])] + (if i + 1 < |ps| then [Pause(InterMessageDelay)] else [])
    ensures after == start + Trace(ps, i + 1)
  {
  }

  lemma TraceStep(ps: seq<Payload>, i: nat)
    requires i < |ps|
    ensures Trace(ps, i + 1) == Trace(ps, i) + [Post(ps[i])] + (if i + 1 < |ps| then [Pause(InterMessageDelay)] else [])
  {
  }

  lemma RejectionStep(respond: nat -> Response, i: nat)
    requires FirstRejection(respond, i) == None
    ensures FirstRejection(respond, i + 1) == if Accepted(respond(i)) then None else Some(i)
  {
  }

  /** Once a post has been refused, later posts do not change which one was refused first. */
  lemma FirstRejectionStable(respond: nat -> Response, n: nat, m: nat)
    requires n <= m && FirstRejection(respond, n).Some?
    ensures FirstRejection(respond, m) == FirstRejection(respond, n)
  {
  }
}
