/** The message-history and thread bookkeeping of `AssistantHandler` in
    `telegram_openai_assistant/assistant_handler.py`. The calls to the
    assistant service are not modelled: the thread id it would create and
    the raw text of its latest message are inputs. */
module Assistant {
  import opened Wrappers
  import opened Text

  /** `max_messages` of `trim_message_history`. */
  const MaxMessages: nat := 20

  datatype Role = UserRole | AssistantRole

  /** One `{"role": ..., "content": ...}` entry of `message_history`. */
  datatype Entry = Entry(role: Role, content: string)

  /** The handler's state; `threadId` is `None` until the first call creates a thread. */
  datatype Handler = Handler(assistantId: string, threadId: Option<string>, history: seq<Entry>)

  /** A fresh handler: no thread yet, and a history that already satisfies
      the user/assistant alternation `GetAnswerPaired` preserves. */
  function NewHandler(assistantId: string): (h: Handler)
    ensures h.threadId == None && h.assistantId == assistantId
    ensures Paired(h.history) && |h.history| <= MaxMessages
  {
    Handler(assistantId, None, [])
  }

  /** `trim_message_history`: at most the last 20 entries are kept, in their
      original order; a history of 20 or fewer is left as it is. */
  function Trim<T>(h: seq<T>): (r: seq<T>)
    ensures |r| == if |h| <= MaxMessages then |h| else MaxMessages
  {
    if |h| > MaxMessages then h[|h| - MaxMessages..] else h
  }

  /** What `Trim` keeps is a suffix of the history: its newest entries, in order. */
  lemma TrimSuffix<T>(h: seq<T>)
    ensures Trim(h) == h[|h| - |Trim(h)|..]
    ensures |h| <= MaxMessages ==> Trim(h) == h
  {
  }

  /** Trimming twice is trimming once. */
  lemma TrimIdempotent<T>(h: seq<T>)
    ensures Trim(Trim(h)) == Trim(h)
  {
  }

  /** Trimming along the way loses nothing the final trim would keep: the
      history after any series of appends and trims is the last 20 entries
      of everything ever appended. */
  lemma TrimAppend<T>(a: seq<T>, b: seq<T>)
    ensures Trim(Trim(a) + b) == Trim(a + b)
  {
    if |a| > MaxMessages {
      var d := |a| - MaxMessages;
      assert Trim(a) + b == (a + b)[d..];
      TrimDrop(a + b, d);
    }
  }

  /** Dropping entries older than the last 20 does not change the trim. */
  lemma TrimDrop<T>(h: seq<T>, d: nat)
    requires d + MaxMessages <= |h|
    ensures Trim(h[d..]) == Trim(h)
  {
    assert h[d..][|h| - d - MaxMessages..] == h[|h| - MaxMessages..];
  }

  /** Why `get_answer` raises. */
  datatype AnswerError = NoAssistantResponse  // the stripped reply is empty: `ValueError`

  /** `thread_id` after the `if not self.thread_id` guard: created only when
      unset (Python also treats an empty id as unset), then reused. */
  function EnsureThread(threadId: Option<string>, created: string): (t: Option<string>)
    ensures t != None
    ensures t == threadId || t == Some(created)
    ensures t != threadId ==> threadId == None || threadId.value == ""
    ensures created != "" ==> t.value != ""
  {
    if threadId == None || threadId.value == "" then Some(created) else threadId
  }

  /** Once a thread exists it is kept: every later call reuses it, whatever
      id the service would have created. */
  lemma EnsureThreadStable(threadId: Option<string>, created: string, later: string)
    requires created != ""
    ensures EnsureThread(EnsureThread(threadId, created), later) == EnsureThread(threadId, created)
  {
  }

  /** `get_answer(message)`. `created` is the id the service would give a new
      thread; `raw` is the text of the thread's latest message. On success the
      user entry and the stripped reply are appended and the history trimmed;
      on an empty stripped reply the user entry stays, no assistant entry is
      added, no trim happens, and `ValueError` is raised. */
  function GetAnswer(h: Handler, message: string, created: string, raw: string): (r: (Handler, Result<string, AnswerError>))
    ensures r.0.assistantId == h.assistantId
    ensures r.0.threadId == EnsureThread(h.threadId, created)
    ensures r.1.Err? <==> AllSpace(raw)
    ensures r.1.Err? ==> r.0.history == h.history + [Entry(UserRole, message)]
    ensures r.1.Ok? ==> Stripped(r.1.value) && r.1.value != []
    ensures r.1.Ok? ==> r.0.history == Trim(h.history + [Entry(UserRole, message), Entry(AssistantRole, r.1.value)])
    ensures r.1.Ok? ==> |r.0.history| <= MaxMessages
  {
    var thread := EnsureThread(h.threadId, created);
    var withUser := h.history + [Entry(UserRole, message)];
    var reply := Strip(raw);
    StripEmptyIffBlank(raw);
    StripShape(raw);
    if reply == [] then
      (h.(threadId := thread, history := withUser), Err(NoAssistantResponse))
    else
      (h.(threadId := thread, history := Trim(withUser + [Entry(AssistantRole, reply)])), Ok(reply))
  }

  /** The reply `get_answer` returns is `raw.strip()`. */
  lemma GetAnswerReply(h: Handler, message: string, created: string, raw: string)
    requires !AllSpace(raw)
    ensures GetAnswer(h, message, created, raw).1 == Ok(Strip(raw))
  {
    StripEmptyIffBlank(raw);
  }

  /** The thread is created at most once: after the first call, every later
      call keeps the same id whatever the service would have created. */
  lemma ThreadReused(h: Handler, m1: string, c1: string, raw1: string, m2: string, c2: string, raw2: string)
    requires c1 != ""
    ensures var h1 := GetAnswer(h, m1, c1, raw1).0;
      h1.threadId != None && GetAnswer(h1, m2, c2, raw2).0.threadId == h1.threadId
  {
  }

  /** One exchange: the user's message and the raw reply the service produced for it. */
  datatype Exchange = Exchange(message: string, raw: string)

  /** The two entries an answered exchange appends. */
  function Pair(x: Exchange): seq<Entry> {
    [Entry(UserRole, x.message), Entry(AssistantRole, Strip(x.raw))]
  }

  /** The entries a run of answered exchanges appends, oldest first. */
  function Transcript(xs: seq<Exchange>): seq<Entry> {
    if xs == [] then [] else Pair(xs[0]) + Transcript(xs[1..])
  }

  /** Calls `get_answer` for each exchange in turn (the thread id given for a
      new thread is `created`), stopping at the first error. */
  function Replay(h: Handler, xs: seq<Exchange>, created: string): Handler
    decreases |xs|
  {
    if xs == [] then h
    else
      var (h1, res) := GetAnswer(h, xs[0].message, created, xs[0].raw);
      if res.Err? then h1 else Replay(h1, xs[1..], created)
  }

  /** One answered exchange of `Replay`. */
  lemma ReplayStep(h: Handler, xs: seq<Exchange>, created: string)
    requires xs != [] && !AllSpace(xs[0].raw)
    ensures var h1 := h.(threadId := EnsureThread(h.threadId, created), history := Trim(h.history + Pair(xs[0])));
      Replay(h, xs, created) == Replay(h1, xs[1..], created)
  {
    GetAnswerReply(h, xs[0].message, created, xs[0].raw);
  }

  /** The history is a bounded FIFO: after a run of answered exchanges it is
      the last 20 entries of the old history and every exchange's two
      entries, taken together. */
  lemma {:induction false} ReplayHistory(h: Handler, xs: seq<Exchange>, created: string)
    requires forall k :: 0 <= k < |xs| ==> !AllSpace(xs[k].raw)
    ensures Replay(h, xs, created).history == (if xs == [] then h.history else Trim(h.history + Transcript(xs)))
    decreases |xs|
  {
    if xs != [] {
      var h1 := h.(threadId := EnsureThread(h.threadId, created), history := Trim(h.history + Pair(xs[0])));
      var rest := xs[1..];
      assert Replay(h, xs, created) == Replay(h1, rest, created) by {
        ReplayStep(h, xs, created);
      }
      assert Replay(h1, rest, created).history == (if rest == [] then h1.history else Trim(h1.history + Transcript(rest))) by {
        ReplayHistory(h1, rest, created);
      }
      TrimTranscript(h.history, xs);
    }
  }

  /** Trimming after each exchange is trimming once after all of them. */
  lemma TrimTranscript(hist: seq<Entry>, xs: seq<Exchange>)
    requires xs != []
    ensures var h1 := Trim(hist + Pair(xs[0]));
      Trim(hist + Transcript(xs)) == (if |xs| == 1 then h1 else Trim(h1 + Transcript(xs[1..])))
  {
    var p, t := Pair(xs[0]), Transcript(xs[1..]);
    assert Transcript(xs) == p + t;
    if |xs| == 1 {
      assert t == [];
      assert p + t == p;
    } else {
      TrimConcat(hist, p, t);
    }
  }

  lemma TrimConcat<T>(a: seq<T>, p: seq<T>, t: seq<T>)
    ensures Trim(a + (p + t)) == Trim(Trim(a + p) + t)
  {
    assert a + (p + t) == (a + p) + t;
    TrimAppend(a + p, t);
  }

  /** The history reads user, assistant, user, assistant, ...: complete exchanges only. */
  predicate Paired(h: seq<Entry>) {
    |h| % 2 == 0 && forall k :: 0 <= k < |h| ==> h[k].role == (if k % 2 == 0 then UserRole else AssistantRole)
  }

  lemma PairedAppend(h: seq<Entry>, message: string, reply: string)
    requires Paired(h)
    ensures Paired(h + [Entry(UserRole, message), Entry(AssistantRole, reply)])
  {
    var full := h + [Entry(UserRole, message), Entry(AssistantRole, reply)];
    var n := |h|;
    forall k | 0 <= k < |full| ensures full[k].role == (if k % 2 == 0 then UserRole else AssistantRole) {
      if k < n {
        assert full[k] == h[k];
      } else if k == n {
        assert full[k].role == UserRole;
      } else {
        assert k == n + 1 && (n + 1) % 2 == 1;
      }
    }
  }

  lemma PairedSuffix(h: seq<Entry>, d: nat)
    requires Paired(h) && d <= |h| && d % 2 == 0
    ensures Paired(h[d..])
  {
    var t := h[d..];
    forall k | 0 <= k < |t| ensures t[k].role == (if k % 2 == 0 then UserRole else AssistantRole) {
      assert t[k] == h[d + k];
      assert (d + k) % 2 == k % 2;
    }
  }

  lemma PairedTrimAppend(h: seq<Entry>, message: string, reply: string)
    requires Paired(h)
    ensures Paired(Trim(h + [Entry(UserRole, message), Entry(AssistantRole, reply)]))
  {
    var full := h + [Entry(UserRole, message), Entry(AssistantRole, reply)];
    TrimSuffix(full);
    PairedAppend(h, message, reply);
    PairedSuffix(full, |full| - |Trim(full)|);
  }

  /** A successful `get_answer` keeps the history made of complete exchanges
      (20 is even, so the trim never splits one); a failed one leaves a user
      entry without its reply. */
  lemma GetAnswerPaired(h: Handler, message: string, created: string, raw: string)
    requires Paired(h.history)
    ensures var r := GetAnswer(h, message, created, raw);
      r.1.Ok? <==> Paired(r.0.history)
  {
    var r := GetAnswer(h, message, created, raw);
    if r.1.Ok? {
      PairedTrimAppend(h.history, message, r.1.value);
    } else {
      assert |r.0.history| == |h.history| + 1;
    }
  }
}
