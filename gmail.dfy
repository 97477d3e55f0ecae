/** lib/integrations/gmail.ts: syncGmail. The Gmail API calls are replaced by their
    answers: the threads the list returned, each with its messages or None when fetching
    it failed. The sync reads the stakeholders and activities once at the start and keeps
    comparing against that snapshot while it writes to the store. */
module GmailSync {
  import opened Wrappers
  import opened Text
  import opened Domain
  import opened DataStore
  import opened Matching
  import opened SenderParsing

  /** One message's headers ("" when absent), its snippet, and its Date header read as a
      day: None when `new Date(date)` is an invalid date. */
  datatype Message = Message(
    id: string, from: string, subject: string, date: Option<Day>, contentType: string, snippet: string)

  /** The EmailThread record the sync keeps per sender (the unused `to` list is dropped). */
  datatype EmailThread = EmailThread(
    id: string, subject: string, from: string, fromEmail: string, date: Day,
    snippet: string, hasCalendarInvite: bool)

  /** Only the first 30 listed threads are fetched. */
  const THREAD_LIMIT: nat := 30

  /** A calendar content type, or an invite / accepted / declined subject. */
  predicate IsInvite(contentType: string, subject: string) {
    var s := Lower(subject);
    Contains(contentType, "calendar") || Contains(s, "invite")
    || Contains(s, "accepted:") || Contains(s, "declined:")
  }

  function ThreadOf(m: Message, parse: string -> Sender): (t: EmailThread)
    requires m.date.Some?
    ensures t.fromEmail == parse(m.from).email && t.date == m.date.value
    ensures t.hasCalendarInvite <==> IsInvite(m.contentType, m.subject)
  {
    var sender := parse(m.from);
    EmailThread(m.id, m.subject, sender.name, sender.email, m.date.value, m.snippet,
                IsInvite(m.contentType, m.subject))
  }

  function Senders(ts: seq<EmailThread>): set<string> {
    set t | t in ts :: t.fromEmail
  }

  /** No two kept threads share a sender address. */
  predicate UniqueSenders(ts: seq<EmailThread>) {
    forall i, j :: 0 <= i < j < |ts| ==> ts[i].fromEmail != ts[j].fromEmail
  }

  /** m is a message of one of the first 30 threads that were fetched. */
  ghost predicate Fetched(fetched: seq<Option<seq<Message>>>, m: Message) {
    exists i, j :: 0 <= i < |fetched| && i < THREAD_LIMIT && fetched[i].Some?
                   && 0 <= j < |fetched[i].value| && fetched[i].value[j] == m
  }

  // ---------------------------------------------------------------- collecting threads

  /** The loop over one thread's messages, from the records kept so far: a sender already
      kept is skipped, a new sender's message is kept, and an invalid date throws out of
      the loop, which the per-thread catch turns into "go on with the next thread". */
  function ReadFrom(parse: string -> Sender, ms: seq<Message>, threads: seq<EmailThread>): seq<EmailThread>
    decreases |ms|
  {
    if |ms| == 0 then threads
    else if parse(ms[0].from).email in Senders(threads) then ReadFrom(parse, ms[1..], threads)
    else if ms[0].date.None? then threads
    else ReadFrom(parse, ms[1..], threads + [ThreadOf(ms[0], parse)])
  }

  /** ms[j] is the first message of ms from its sender. */
  predicate FirstFrom(parse: string -> Sender, ms: seq<Message>, j: nat) {
    j < |ms| && forall i :: 0 <= i < j ==> parse(ms[i].from).email != parse(ms[j].from).email
  }

  /** t is the record of the first message from its sender, which had a valid date. */
  ghost predicate FromFirstMessage(t: EmailThread, ms: seq<Message>, parse: string -> Sender) {
    exists j: nat :: FirstFrom(parse, ms, j) && ms[j].date.Some? && t == ThreadOf(ms[j], parse)
  }

  /** t is the record of a fetched message with a valid date. */
  ghost predicate FromFetched(t: EmailThread, fetched: seq<Option<seq<Message>>>, parse: string -> Sender) {
    exists m :: Fetched(fetched, m) && m.date.Some? && t == ThreadOf(m, parse)
  }

  /** Reading a thread only appends records, each for a sender not kept before. */
  lemma {:induction false} ReadFromGrows(parse: string -> Sender, ms: seq<Message>, threads: seq<EmailThread>)
    requires UniqueSenders(threads)
    ensures UniqueSenders(ReadFrom(parse, ms, threads))
    ensures |threads| <= |ReadFrom(parse, ms, threads)|
    ensures ReadFrom(parse, ms, threads)[..|threads|] == threads
    ensures Senders(threads) <= Senders(ReadFrom(parse, ms, threads))
    decreases |ms|
  {
    if |ms| > 0 && parse(ms[0].from).email in Senders(threads) {
      ReadFromGrows(parse, ms[1..], threads);
    } else if |ms| > 0 && ms[0].date.Some? {
      var t := ThreadOf(ms[0], parse);
      var more := threads + [t];
      forall i | 0 <= i < |threads|
        ensures threads[i].fromEmail != t.fromEmail
      {
        assert threads[i] in threads;
      }
      SendersSnoc(threads, t);
      ReadFromGrows(parse, ms[1..], more);
      var r := ReadFrom(parse, ms, threads);
      assert r[..|threads|] == r[..|more|][..|threads|];
    }
  }

  /** A record past the kept prefix of a list with unique senders is from a new sender. */
  lemma PastPrefixIsNew(r: seq<EmailThread>, threads: seq<EmailThread>, k: nat)
    requires UniqueSenders(r) && |threads| <= k < |r| && r[..|threads|] == threads
    ensures r[k].fromEmail !in Senders(threads)
  {
    forall x | x in threads
      ensures x.fromEmail != r[k].fromEmail
    {
      var i :| 0 <= i < |threads| && threads[i] == x;
      assert r[i] == x;
    }
  }

  /** A message first from its sender in ms[1..] is first in ms when ms[0] has another sender. */
  lemma FirstShift(parse: string -> Sender, ms: seq<Message>, j: nat)
    requires |ms| > 0 && FirstFrom(parse, ms[1..], j)
    requires parse(ms[0].from).email != parse(ms[j + 1].from).email
    ensures FirstFrom(parse, ms, j + 1)
  {
    forall i | 1 <= i < j + 1
      ensures parse(ms[i].from).email != parse(ms[j + 1].from).email
    {
      assert ms[i] == ms[1..][i - 1];
    }
  }

  /** Each record a thread adds is the record of its sender's first message in the thread. */
  lemma {:induction false} ReadFromFirst(parse: string -> Sender, ms: seq<Message>, threads: seq<EmailThread>)
    requires UniqueSenders(threads)
    ensures forall k :: |threads| <= k < |ReadFrom(parse, ms, threads)| ==>
              FromFirstMessage(ReadFrom(parse, ms, threads)[k], ms, parse)
    decreases |ms|
  {
    var r := ReadFrom(parse, ms, threads);
    if |ms| == 0 || (parse(ms[0].from).email !in Senders(threads) && ms[0].date.None?) {
      return;
    }
    var e := parse(ms[0].from).email;
    var more := if e in Senders(threads) then threads else threads + [ThreadOf(ms[0], parse)];
    if e !in Senders(threads) {
      forall i | 0 <= i < |threads|
        ensures threads[i].fromEmail != e
      {
        assert threads[i] in threads;
      }
      SendersSnoc(threads, ThreadOf(ms[0], parse));
    }
    assert e in Senders(more);
    assert r == ReadFrom(parse, ms[1..], more);
    ReadFromGrows(parse, ms[1..], more);
    ReadFromFirst(parse, ms[1..], more);
    forall k | |threads| <= k < |r|
      ensures FromFirstMessage(r[k], ms, parse)
    {
      if k < |more| {
        assert r[k] == r[..|more|][k] == ThreadOf(ms[0], parse);
        assert FirstFrom(parse, ms, 0);
      } else {
        var j: nat :| FirstFrom(parse, ms[1..], j) && ms[1..][j].date.Some? && r[k] == ThreadOf(ms[1..][j], parse);
        PastPrefixIsNew(r, more, k);
        FirstShift(parse, ms, j);
      }
    }
  }

  /** When every date in the thread is valid, every sender of the thread ends up kept. */
  lemma {:induction false} ReadFromComplete(parse: string -> Sender, ms: seq<Message>, threads: seq<EmailThread>)
    requires UniqueSenders(threads)
    requires forall m :: m in ms ==> m.date.Some?
    ensures forall m :: m in ms ==> parse(m.from).email in Senders(ReadFrom(parse, ms, threads))
    decreases |ms|
  {
    if |ms| > 0 {
      var e := parse(ms[0].from).email;
      var more := if e in Senders(threads) then threads else threads + [ThreadOf(ms[0], parse)];
      assert ms[0] in ms;
      if e !in Senders(threads) {
        forall i | 0 <= i < |threads|
          ensures threads[i].fromEmail != e
        {
          assert threads[i] in threads;
        }
        SendersSnoc(threads, ThreadOf(ms[0], parse));
      }
      assert forall m :: m in ms[1..] ==> m in ms;
      ReadFromComplete(parse, ms[1..], more);
      ReadFromGrows(parse, ms[1..], more);
      assert forall m :: m in ms ==> m == ms[0] || m in ms[1..];
    }
  }

  /** The loop over one thread's messages, with the set of processed senders beside the
      records. */
  method ReadThread(parse: string -> Sender, messages: seq<Message>, threads: seq<EmailThread>, processed: set<string>)
    returns (threads': seq<EmailThread>, processed': set<string>)
    requires processed == Senders(threads)
    ensures threads' == ReadFrom(parse, messages, threads)
    ensures processed' == Senders(threads')
  {
    threads', processed' := threads, processed;
    var i := 0;
    while i < |messages|
      invariant 0 <= i <= |messages|
      invariant processed' == Senders(threads')
      invariant ReadFrom(parse, messages[i..], threads') == ReadFrom(parse, messages, threads)
    {
      var m := messages[i];
      assert messages[i..][1..] == messages[i + 1..];
      var sender := parse(m.from);
      if sender.email !in processed' {
        if m.date.None? {
          return;
        }
        var t := ThreadOf(m, parse);
        SendersSnoc(threads', t);
        threads' := threads' + [t];
        processed' := processed' + {sender.email};
      }
      i := i + 1;
    }
  }

  /** The loop over the fetched threads from the records kept so far; a thread whose fetch
      failed is skipped. */
  function CollectFrom(parse: string -> Sender, fs: seq<Option<seq<Message>>>, threads: seq<EmailThread>)
    : seq<EmailThread>
    decreases |fs|
  {
    if |fs| == 0 then threads
    else CollectFrom(parse, fs[1..], if fs[0].Some? then ReadFrom(parse, fs[0].value, threads) else threads)
  }

  /** The records kept from the first 30 listed threads. */
  function Collected(parse: string -> Sender, fetched: seq<Option<seq<Message>>>): seq<EmailThread> {
    CollectFrom(parse, fetched[..if |fetched| < THREAD_LIMIT then |fetched| else THREAD_LIMIT], [])
  }

  /** The loop over the first 30 fetched threads, reading senders with `parse` (the sync
      passes ExtractNameFromEmail). */
  method CollectThreads(parse: string -> Sender, fetched: seq<Option<seq<Message>>>) returns (threads: seq<EmailThread>)
    ensures threads == Collected(parse, fetched)
  {
    threads := [];
    var processed: set<string> := {};
    var limit := if |fetched| < THREAD_LIMIT then |fetched| else THREAD_LIMIT;
    ghost var fs := fetched[..limit];
    var t := 0;
    while t < limit
      invariant 0 <= t <= limit
      invariant processed == Senders(threads)
      invariant CollectFrom(parse, fs[t..], threads) == Collected(parse, fetched)
    {
      assert fs[t..][1..] == fs[t + 1..] && fs[t..][0] == fetched[t];
      if fetched[t].Some? {
        threads, processed := ReadThread(parse, fetched[t].value, threads, processed);
      }
      t := t + 1;
    }
  }

  /** No sender twice, and every record taken from a fetched message with a valid date. */
  ghost predicate WellCollected(threads: seq<EmailThread>, fetched: seq<Option<seq<Message>>>, parse: string -> Sender) {
    UniqueSenders(threads) && forall k :: 0 <= k < |threads| ==> FromFetched(threads[k], fetched, parse)
  }

  /** The senders of the fetched thread at index t. */
  ghost predicate SendersKept(fetched: seq<Option<seq<Message>>>, t: nat, parse: string -> Sender, threads: seq<EmailThread>)
    requires t < |fetched|
  {
    fetched[t].Some? ==>
      forall j :: 0 <= j < |fetched[t].value| ==> parse(fetched[t].value[j].from).email in Senders(threads)
  }

  /** One fetched thread keeps the records well collected, and with every date valid it
      keeps all of its senders. */
  lemma ReadFetched(parse: string -> Sender, fetched: seq<Option<seq<Message>>>, t: nat, threads: seq<EmailThread>)
    requires t < |fetched| && t < THREAD_LIMIT && fetched[t].Some?
    requires WellCollected(threads, fetched, parse)
    ensures WellCollected(ReadFrom(parse, fetched[t].value, threads), fetched, parse)
    ensures Senders(threads) <= Senders(ReadFrom(parse, fetched[t].value, threads))
    ensures (forall m :: Fetched(fetched, m) ==> m.date.Some?) ==>
              SendersKept(fetched, t, parse, ReadFrom(parse, fetched[t].value, threads))
  {
    var messages := fetched[t].value;
    var r := ReadFrom(parse, messages, threads);
    ReadFromGrows(parse, messages, threads);
    ReadFromFirst(parse, messages, threads);
    forall k | 0 <= k < |r|
      ensures FromFetched(r[k], fetched, parse)
    {
      if k < |threads| {
        assert r[k] == r[..|threads|][k];
      } else {
        assert FromFirstMessage(r[k], messages, parse);
        var j: nat :| FirstFrom(parse, messages, j) && messages[j].date.Some? && r[k] == ThreadOf(messages[j], parse);
        assert Fetched(fetched, messages[j]);
      }
    }
    if forall m :: Fetched(fetched, m) ==> m.date.Some? {
      forall m | m in messages
        ensures m.date.Some?
      {
        var j :| 0 <= j < |messages| && messages[j] == m;
        assert Fetched(fetched, m);
      }
      ReadFromComplete(parse, messages, threads);
      assert forall j :: 0 <= j < |messages| ==> messages[j] in messages;
    }
  }

  /** The collection loop from thread t on keeps the records well collected, and with every
      date valid keeps every sender of the threads it reads. */
  lemma {:induction false} CollectFromShape(parse: string -> Sender, fetched: seq<Option<seq<Message>>>,
                                            t: nat, limit: nat, threads: seq<EmailThread>)
    requires t <= limit <= |fetched| && limit <= THREAD_LIMIT
    requires WellCollected(threads, fetched, parse)
    ensures WellCollected(CollectFrom(parse, fetched[t..limit], threads), fetched, parse)
    ensures Senders(threads) <= Senders(CollectFrom(parse, fetched[t..limit], threads))
    ensures (forall m :: Fetched(fetched, m) ==> m.date.Some?) ==>
              forall i :: t <= i < limit ==> SendersKept(fetched, i, parse, CollectFrom(parse, fetched[t..limit], threads))
    decreases limit - t
  {
    if t < limit {
      var next := if fetched[t].Some? then ReadFrom(parse, fetched[t].value, threads) else threads;
      assert fetched[t..limit][1..] == fetched[t + 1..limit] && fetched[t..limit][0] == fetched[t];
      assert CollectFrom(parse, fetched[t..limit], threads) == CollectFrom(parse, fetched[t + 1..limit], next);
      if fetched[t].Some? {
        ReadFetched(parse, fetched, t, threads);
      }
      CollectFromShape(parse, fetched, t + 1, limit, next);
      var r := CollectFrom(parse, fetched[t + 1..limit], next);
      if forall m :: Fetched(fetched, m) ==> m.date.Some? {
        forall i | t <= i < limit
          ensures SendersKept(fetched, i, parse, r)
        {
          if i == t && fetched[t].Some? {
            SendersKeptWider(fetched, t, parse, next, r);
          }
        }
      }
    }
  }

  lemma SendersKeptWider(fetched: seq<Option<seq<Message>>>, t: nat, parse: string -> Sender,
                         a: seq<EmailThread>, b: seq<EmailThread>)
    requires t < |fetched| && SendersKept(fetched, t, parse, a) && Senders(a) <= Senders(b)
    ensures SendersKept(fetched, t, parse, b)
  {
  }

  /** The collected records: one per sender, each that of a fetched message with a valid
      date; when every date is valid, every sender of a fetched message is collected. */
  lemma CollectedShape(parse: string -> Sender, fetched: seq<Option<seq<Message>>>)
    ensures UniqueSenders(Collected(parse, fetched))
    ensures forall k :: 0 <= k < |Collected(parse, fetched)| ==> FromFetched(Collected(parse, fetched)[k], fetched, parse)
    ensures (forall m :: Fetched(fetched, m) ==> m.date.Some?) ==>
              forall m :: Fetched(fetched, m) ==> parse(m.from).email in Senders(Collected(parse, fetched))
  {
    var limit := if |fetched| < THREAD_LIMIT then |fetched| else THREAD_LIMIT;
    assert fetched[..limit] == fetched[0..limit];
    CollectFromShape(parse, fetched, 0, limit, []);
    if forall m :: Fetched(fetched, m) ==> m.date.Some? {
      forall m | Fetched(fetched, m)
        ensures parse(m.from).email in Senders(Collected(parse, fetched))
      {
        var i, j :| 0 <= i < |fetched| && i < THREAD_LIMIT && fetched[i].Some?
                    && 0 <= j < |fetched[i].value| && fetched[i].value[j] == m;
        assert SendersKept(fetched, i, parse, Collected(parse, fetched));
      }
    }
  }

  // ---------------------------------------------------------------- contacts by sender

  /** A value of the uniqueContacts map, keyed by its email. */
  datatype Contact = Contact(name: string, email: string, subjects: seq<string>, lastDate: Day)

  /** The entry a sender's first thread creates. */
  function ContactOf(t: EmailThread): Contact {
    Contact(t.from, t.fromEmail, [t.subject], t.date)
  }

  /** The senders of the threads in first-appearance order: the key order of the map. */
  function Firsts(ts: seq<EmailThread>): seq<string> {
    if |ts| == 0 then []
    else
      var prefix := ts[..|ts| - 1];
      if ts[|ts| - 1].fromEmail in Senders(prefix) then Firsts(prefix) else Firsts(prefix) + [ts[|ts| - 1].fromEmail]
  }

  /** The display name of the first thread from `email`. */
  function NameFrom(ts: seq<EmailThread>, email: string): string {
    if |ts| == 0 then ""
    else
      var prefix := ts[..|ts| - 1];
      if email in Senders(prefix) || ts[|ts| - 1].fromEmail != email then NameFrom(prefix, email)
      else ts[|ts| - 1].from
  }

  /** The subjects of the threads from `email`, in thread order. */
  function SubjectsFrom(ts: seq<EmailThread>, email: string): seq<string> {
    if |ts| == 0 then []
    else
      var last := ts[|ts| - 1];
      SubjectsFrom(ts[..|ts| - 1], email) + (if last.fromEmail == email then [last.subject] else [])
  }

  /** The date the map holds for `email`: the first thread's, replaced by each strictly
      later one. */
  function LatestFrom(ts: seq<EmailThread>, email: string): Day {
    if |ts| == 0 then 0
    else
      var prefix := ts[..|ts| - 1];
      var last := ts[|ts| - 1];
      if last.fromEmail != email then LatestFrom(prefix, email)
      else if email !in Senders(prefix) || last.date > LatestFrom(prefix, email) then last.date
      else LatestFrom(prefix, email)
  }

  /** The entry the map holds for a sender once the threads went through the loop. */
  function EntryFor(ts: seq<EmailThread>, email: string): Contact {
    Contact(NameFrom(ts, email), email, SubjectsFrom(ts, email), LatestFrom(ts, email))
  }

  /** The uniqueContacts map after the threads, in insertion order. */
  function ContactsOf(ts: seq<EmailThread>): seq<Contact> {
    seq(|Firsts(ts)|, i requires 0 <= i < |Firsts(ts)| => EntryFor(ts, Firsts(ts)[i]))
  }

  lemma SendersSnoc(ts: seq<EmailThread>, t: EmailThread)
    ensures Senders(ts + [t]) == Senders(ts) + {t.fromEmail}
  {
    assert forall x :: x in ts + [t] <==> x in ts || x == t;
  }

  lemma {:induction false} SubjectsFromNone(ts: seq<EmailThread>, email: string)
    requires email !in Senders(ts)
    ensures SubjectsFrom(ts, email) == []
  {
    if |ts| > 0 {
      var last := ts[|ts| - 1];
      assert last in ts;
      assert forall x :: x in ts[..|ts| - 1] ==> x in ts;
      SubjectsFromNone(ts[..|ts| - 1], email);
    }
  }

  /** Each sender is listed once, and the list holds exactly the senders. */
  lemma {:induction false} FirstsMeaning(ts: seq<EmailThread>)
    ensures forall i, j :: 0 <= i < j < |Firsts(ts)| ==> Firsts(ts)[i] != Firsts(ts)[j]
    ensures forall e :: e in Firsts(ts) <==> e in Senders(ts)
  {
    if |ts| > 0 {
      var prefix := ts[..|ts| - 1];
      assert ts == prefix + [ts[|ts| - 1]];
      SendersSnoc(prefix, ts[|ts| - 1]);
      FirstsMeaning(prefix);
    }
  }

  /** The date held for a sender is the date of one of its threads, and no thread of it is
      later. */
  lemma {:induction false} LatestFromMax(ts: seq<EmailThread>, email: string)
    requires email in Senders(ts)
    ensures exists k :: 0 <= k < |ts| && ts[k].fromEmail == email && ts[k].date == LatestFrom(ts, email)
    ensures forall k :: 0 <= k < |ts| && ts[k].fromEmail == email ==> ts[k].date <= LatestFrom(ts, email)
  {
    var prefix := ts[..|ts| - 1];
    var last := ts[|ts| - 1];
    assert ts == prefix + [last];
    SendersSnoc(prefix, last);
    if email in Senders(prefix) {
      LatestFromMax(prefix, email);
      var k :| 0 <= k < |prefix| && prefix[k].fromEmail == email && prefix[k].date == LatestFrom(prefix, email);
      assert ts[k] == prefix[k];
    } else {
      forall k | 0 <= k < |prefix|
        ensures prefix[k].fromEmail != email
      {
        assert prefix[k] in prefix;
      }
    }
  }

  /** The name held for a sender is the one its first thread gave. */
  lemma {:induction false} NameFromFirst(ts: seq<EmailThread>, email: string)
    requires email in Senders(ts)
    ensures exists k :: 0 <= k < |ts| && ts[k].fromEmail == email && ts[k].from == NameFrom(ts, email)
                        && forall i :: 0 <= i < k ==> ts[i].fromEmail != email
  {
    var prefix := ts[..|ts| - 1];
    var last := ts[|ts| - 1];
    assert ts == prefix + [last];
    SendersSnoc(prefix, last);
    if email in Senders(prefix) {
      NameFromFirst(prefix, email);
      var k :| 0 <= k < |prefix| && prefix[k].fromEmail == email && prefix[k].from == NameFrom(prefix, email)
               && forall i :: 0 <= i < k ==> prefix[i].fromEmail != email;
      assert ts[k] == prefix[k];
    } else {
      forall i | 0 <= i < |prefix|
        ensures prefix[i].fromEmail != email
      {
        assert prefix[i] in prefix;
      }
    }
  }

  /** A thread leaves the entries of the other senders as they were. */
  lemma EntryOther(ts: seq<EmailThread>, t: EmailThread, email: string)
    requires email != t.fromEmail
    ensures EntryFor(ts + [t], email) == EntryFor(ts, email)
  {
    assert (ts + [t])[..|ts|] == ts;
  }

  /** A sender not yet in the map gets a fresh entry at the end. */
  lemma AggregateNew(ts: seq<EmailThread>, t: EmailThread)
    requires t.fromEmail !in Senders(ts)
    ensures ContactsOf(ts + [t]) == ContactsOf(ts) + [ContactOf(t)]
  {
    var ts' := ts + [t];
    assert ts'[..|ts|] == ts;
    FirstsMeaning(ts);
    SubjectsFromNone(ts, t.fromEmail);
    assert Firsts(ts') == Firsts(ts) + [t.fromEmail];
    assert EntryFor(ts', t.fromEmail) == ContactOf(t);
    forall i | 0 <= i < |Firsts(ts)|
      ensures ContactsOf(ts')[i] == ContactsOf(ts)[i]
    {
      assert Firsts(ts)[i] in Firsts(ts);
      EntryOther(ts, t, Firsts(ts)[i]);
    }
  }

  /** A later thread of a known sender: its subject appended, the later date kept. */
  function MergeThread(e: Contact, t: EmailThread): Contact {
    e.(subjects := e.subjects + [t.subject], lastDate := if t.date > e.lastDate then t.date else e.lastDate)
  }

  /** A sender already in the map has the subject appended and the later date kept. */
  lemma AggregateMerge(ts: seq<EmailThread>, t: EmailThread, p: nat)
    requires p < |ContactsOf(ts)| && ContactsOf(ts)[p].email == t.fromEmail
    ensures ContactsOf(ts + [t]) == ContactsOf(ts)[p := MergeThread(ContactsOf(ts)[p], t)]
  {
    var ts' := ts + [t];
    var e := t.fromEmail;
    assert ts'[..|ts|] == ts;
    FirstsMeaning(ts);
    assert Firsts(ts)[p] == e && e in Firsts(ts);
    assert Firsts(ts') == Firsts(ts);
    assert EntryFor(ts', e) == MergeThread(EntryFor(ts, e), t);
    forall i | 0 <= i < |Firsts(ts)| && i != p
      ensures ContactsOf(ts')[i] == ContactsOf(ts)[i]
    {
      EntryOther(ts, t, Firsts(ts)[i]);
    }
  }

  /** Map.get on the insertion-ordered map: the position of the entry for `email`. */
  function EntryOf(contacts: seq<Contact>, email: string): (r: Option<nat>)
    ensures r.Some? ==> r.value < |contacts| && contacts[r.value].email == email
    ensures r.None? <==> forall i :: 0 <= i < |contacts| ==> contacts[i].email != email
  {
    if |contacts| == 0 then None
    else if contacts[0].email == email then Some(0)
    else
      match EntryOf(contacts[1..], email)
      case None => None
      case Some(i) => Some(i + 1)
  }

  /** The uniqueContacts loop. */
  method AggregateContacts(threads: seq<EmailThread>) returns (contacts: seq<Contact>)
    ensures contacts == ContactsOf(threads)
  {
    contacts := [];
    var k := 0;
    while k < |threads|
      invariant 0 <= k <= |threads|
      invariant contacts == ContactsOf(threads[..k])
    {
      assert threads[..k + 1] == threads[..k] + [threads[k]];
      contacts := AddThread(contacts, threads[..k], threads[k]);
      k := k + 1;
    }
    assert threads[..k] == threads;
  }

  /** One turn of the loop: a new sender gets an entry, a known one is merged into. */
  method AddThread(contacts: seq<Contact>, ts: seq<EmailThread>, thread: EmailThread)
    returns (contacts': seq<Contact>)
    requires contacts == ContactsOf(ts)
    ensures contacts' == ContactsOf(ts + [thread])
  {
    var entry := EntryOf(contacts, thread.fromEmail);
    if entry.None? {
      FirstsMeaning(ts);
      forall i | 0 <= i < |Firsts(ts)|
        ensures Firsts(ts)[i] != thread.fromEmail
      {
        assert contacts[i].email == Firsts(ts)[i];
      }
      AggregateNew(ts, thread);
      contacts' := contacts + [ContactOf(thread)];
    } else {
      AggregateMerge(ts, thread, entry.value);
      contacts' := contacts[entry.value := MergeThread(contacts[entry.value], thread)];
    }
  }

  /** Without repeated senders every sender's subjects are exactly one. */
  lemma {:induction false} SubjectsFromUnique(ts: seq<EmailThread>, email: string)
    requires UniqueSenders(ts) && email in Senders(ts)
    ensures |SubjectsFrom(ts, email)| == 1
  {
    var prefix := ts[..|ts| - 1];
    var last := ts[|ts| - 1];
    UniqueInit(ts);
    assert ts == prefix + [last];
    SendersSnoc(prefix, last);
    if last.fromEmail == email {
      SubjectsFromNone(prefix, email);
    } else {
      SubjectsFromUnique(prefix, email);
    }
  }

  /** Without its last thread a list keeps unique senders, none of them the last one's. */
  lemma UniqueInit(ts: seq<EmailThread>)
    requires |ts| > 0 && UniqueSenders(ts)
    ensures UniqueSenders(ts[..|ts| - 1])
    ensures ts[|ts| - 1].fromEmail !in Senders(ts[..|ts| - 1])
  {
    var prefix := ts[..|ts| - 1];
    forall x | x in prefix
      ensures x.fromEmail != ts[|ts| - 1].fromEmail
    {
      var i :| 0 <= i < |prefix| && prefix[i] == x;
      assert ts[i] == x;
    }
  }

  /** The auto-create branch asks for a contact with two or more subjects. Collection
      keeps one message per sender, so every contact has exactly one subject and the
      branch never runs: the sync never creates a stakeholder. */
  lemma OneSubjectEach(threads: seq<EmailThread>)
    requires UniqueSenders(threads)
    ensures forall c :: c in ContactsOf(threads) ==> |c.subjects| == 1
  {
    FirstsMeaning(threads);
    forall c | c in ContactsOf(threads)
      ensures |c.subjects| == 1
    {
      var i :| 0 <= i < |ContactsOf(threads)| && ContactsOf(threads)[i] == c;
      assert Firsts(threads)[i] in Firsts(threads);
      SubjectsFromUnique(threads, c.email);
    }
  }

  // ---------------------------------------------------------------- matching contacts

  /** The stakeholder a contact resolves to in the list read at the start of the sync. */
  function MatchOf(c: Contact, snapshot: seq<Stakeholder>): Option<Stakeholder> {
    MatchStakeholder(c.email, c.name, snapshot)
  }

  /** The contact resolves and its record lacks an email or has an older date. */
  predicate NeedsUpdate(c: Contact, snapshot: seq<Stakeholder>) {
    var m := MatchOf(c, snapshot);
    m.Some? && (LacksEmail(m.value) || IsLater(c.lastDate, m.value.lastContactDate))
  }

  /** The fields written for a resolved contact: the email when the record has none, the
      contact's date when the record's is missing or older. */
  function ContactPatch(c: Contact, m: Stakeholder): (p: Patch)
    ensures p.HasFields() <==> LacksEmail(m) || IsLater(c.lastDate, m.lastContactDate)
  {
    NoChanges.(email := if LacksEmail(m) then Some(c.email) else None,
               lastContactDate := if IsLater(c.lastDate, m.lastContactDate) then Some(Some(c.lastDate)) else None)
  }

  /** contact.email.split("@")[1] is undefined without an '@', and reading `.includes` on
      it throws, which fails the whole sync. Only unresolved contacts reach that line. */
  predicate Throws(c: Contact, snapshot: seq<Stakeholder>) {
    MatchOf(c, snapshot).None? && '@' !in c.email
  }

  /** How many of the contacts take the update branch. */
  function UpdatesNeeded(cs: seq<Contact>, snapshot: seq<Stakeholder>): (n: nat)
    ensures n <= |cs|
    ensures n == 0 <==> forall c :: c in cs ==> !NeedsUpdate(c, snapshot)
  {
    if |cs| == 0 then 0
    else
      var prefix := cs[..|cs| - 1];
      assert forall c :: c in cs <==> c in prefix || c == cs[|cs| - 1] by {
        assert cs == prefix + [cs[|cs| - 1]];
      }
      UpdatesNeeded(prefix, snapshot) + (if NeedsUpdate(cs[|cs| - 1], snapshot) then 1 else 0)
  }

  /** The email a contact in cs wrote over the missing email of a record with this id. */
  ghost predicate EmailWritten(email: Option<string>, id: string, cs: seq<Contact>, snapshot: seq<Stakeholder>) {
    exists c :: c in cs && MatchOf(c, snapshot).Some? && MatchOf(c, snapshot).value.id == id
                && LacksEmail(MatchOf(c, snapshot).value) && email == Some(c.email)
  }

  /** The date a contact in cs wrote over a missing or older date of a record with this id. */
  ghost predicate DateWritten(date: Option<Day>, id: string, cs: seq<Contact>, snapshot: seq<Stakeholder>) {
    exists c :: c in cs && MatchOf(c, snapshot).Some? && MatchOf(c, snapshot).value.id == id
                && IsLater(c.lastDate, MatchOf(c, snapshot).value.lastContactDate) && date == Some(c.lastDate)
  }

  /** How a record may stand after the contacts in cs went through the update branch:
      only its email and date differ from the snapshot, each written by a contact that
      resolved to its id and found that field missing (or, for the date, older) in the
      record the match returned. */
  ghost predicate Evolved(before: Stakeholder, after: Stakeholder, cs: seq<Contact>, snapshot: seq<Stakeholder>) {
    after == before.(email := after.email, lastContactDate := after.lastContactDate)
    && (after.email == before.email || EmailWritten(after.email, before.id, cs, snapshot))
    && (after.lastContactDate == before.lastContactDate
        || DateWritten(after.lastContactDate, before.id, cs, snapshot))
  }

  /** Every record of `current` evolved from its snapshot record under cs. */
  ghost predicate AllEvolved(current: seq<Stakeholder>, cs: seq<Contact>, snapshot: seq<Stakeholder>) {
    |current| == |snapshot| && forall i :: 0 <= i < |snapshot| ==> Evolved(snapshot[i], current[i], cs, snapshot)
  }

  lemma EvolvedWider(before: Stakeholder, after: Stakeholder, cs: seq<Contact>, ds: seq<Contact>, snapshot: seq<Stakeholder>)
    requires Evolved(before, after, cs, snapshot)
    requires forall c :: c in cs ==> c in ds
    ensures Evolved(before, after, ds, snapshot)
  {
  }

  /** One update: the overlay of a resolved contact's patch keeps the record evolved. */
  lemma EvolvedUpdate(before: Stakeholder, current: Stakeholder, cs: seq<Contact>, c: Contact, snapshot: seq<Stakeholder>)
    requires Evolved(before, current, cs, snapshot)
    requires MatchOf(c, snapshot).Some? && MatchOf(c, snapshot).value.id == before.id
    ensures var m := MatchOf(c, snapshot).value;
            Evolved(before, Overlay(current, ContactPatch(c, m), m.id), cs + [c], snapshot)
  {
    var m := MatchOf(c, snapshot).value;
    var after := Overlay(current, ContactPatch(c, m), m.id);
    EvolvedWider(before, current, cs, cs + [c], snapshot);
    if LacksEmail(m) {
      assert EmailWritten(after.email, before.id, cs + [c], snapshot);
    }
    if IsLater(c.lastDate, m.lastContactDate) {
      assert DateWritten(after.lastContactDate, before.id, cs + [c], snapshot);
    }
  }

  /** With unique identifiers the record the match returned is the record itself, so an
      email is only ever written over a missing one and a date only ever moves later than
      the snapshot's, and at most the two fields change. Two contacts resolving to one
      record still both write, the later in map order winning, so the date need not be
      the latest of them. */
  lemma EvolvedForward(snapshot: seq<Stakeholder>, i: nat, after: Stakeholder, cs: seq<Contact>)
    requires UniqueIds(snapshot) && i < |snapshot|
    requires Evolved(snapshot[i], after, cs, snapshot)
    ensures after.id == snapshot[i].id && after.name == snapshot[i].name
    ensures after.email != snapshot[i].email ==> LacksEmail(snapshot[i])
    ensures after.lastContactDate != snapshot[i].lastContactDate ==>
              after.lastContactDate.Some? && IsLater(after.lastContactDate.value, snapshot[i].lastContactDate)
  {
    var before := snapshot[i];
    if after.email != before.email {
      var c :| c in cs && MatchOf(c, snapshot).Some? && MatchOf(c, snapshot).value.id == before.id
               && LacksEmail(MatchOf(c, snapshot).value) && after.email == Some(c.email);
      var j :| 0 <= j < |snapshot| && snapshot[j] == MatchOf(c, snapshot).value;
    }
    if after.lastContactDate != before.lastContactDate {
      var c :| c in cs && MatchOf(c, snapshot).Some? && MatchOf(c, snapshot).value.id == before.id
               && IsLater(c.lastDate, MatchOf(c, snapshot).value.lastContactDate)
               && after.lastContactDate == Some(c.lastDate);
      var j :| 0 <= j < |snapshot| && snapshot[j] == MatchOf(c, snapshot).value;
    }
  }

  /** The records after one contact went through the loop body: updateStakeholder with
      its patch when it resolves and needs one, no write otherwise. */
  function AfterContact(ss: seq<Stakeholder>, c: Contact, snapshot: seq<Stakeholder>): seq<Stakeholder> {
    if NeedsUpdate(c, snapshot) then
      UpdateById(ss, MatchOf(c, snapshot).value.id, ContactPatch(c, MatchOf(c, snapshot).value))
    else ss
  }

  /** The records after the contacts went through the loop body in turn. */
  function Reconciled(ss: seq<Stakeholder>, cs: seq<Contact>, snapshot: seq<Stakeholder>): seq<Stakeholder> {
    if |cs| == 0 then ss
    else AfterContact(Reconciled(ss, cs[..|cs| - 1], snapshot), cs[|cs| - 1], snapshot)
  }

  /** Some contact of cs throws in the create branch. */
  predicate AnyThrows(cs: seq<Contact>, snapshot: seq<Stakeholder>) {
    exists i :: 0 <= i < |cs| && Throws(cs[i], snapshot)
  }

  /** The position of the first contact that throws, or |cs| when none does: the loop gets
      through the contacts before it. */
  function FirstThrow(cs: seq<Contact>, snapshot: seq<Stakeholder>): (n: nat)
    ensures n <= |cs|
    ensures forall i :: 0 <= i < n ==> !Throws(cs[i], snapshot)
    ensures n < |cs| <==> AnyThrows(cs, snapshot)
    ensures n < |cs| ==> Throws(cs[n], snapshot)
  {
    if |cs| == 0 then 0
    else if Throws(cs[0], snapshot) then 0
    else
      var n := FirstThrow(cs[1..], snapshot);
      assert forall i :: 1 <= i < |cs| ==> cs[i] == cs[1..][i - 1];
      1 + n
  }

  /** The records the loop leaves: the writes of the contacts before the first throw. */
  function Written(contacts: seq<Contact>, snapshot: seq<Stakeholder>): seq<Stakeholder> {
    Reconciled(snapshot, contacts[..FirstThrow(contacts, snapshot)], snapshot)
  }

  /** The loop body keeps every record evolved from its snapshot record. */
  lemma EvolvedStep(current: seq<Stakeholder>, cs: seq<Contact>, c: Contact, snapshot: seq<Stakeholder>)
    requires AllEvolved(current, cs, snapshot)
    ensures AllEvolved(AfterContact(current, c, snapshot), cs + [c], snapshot)
  {
    var after := AfterContact(current, c, snapshot);
    if NeedsUpdate(c, snapshot) {
      var m := MatchOf(c, snapshot).value;
      var j :| 0 <= j < |snapshot| && snapshot[j] == m;
      assert current[j].id == m.id;
      var p := FirstIndex(current, m.id).value;
      assert snapshot[p].id == current[p].id == m.id;
      forall i | 0 <= i < |snapshot|
        ensures Evolved(snapshot[i], after[i], cs + [c], snapshot)
      {
        if i == p {
          EvolvedUpdate(snapshot[i], current[i], cs, c, snapshot);
        } else {
          EvolvedWider(snapshot[i], current[i], cs, cs + [c], snapshot);
        }
      }
    } else {
      forall i | 0 <= i < |snapshot|
        ensures Evolved(snapshot[i], after[i], cs + [c], snapshot)
      {
        EvolvedWider(snapshot[i], current[i], cs, cs + [c], snapshot);
      }
    }
  }

  /** Going through the contacts leaves every record evolved from its snapshot record. */
  lemma {:induction false} ReconciledEvolved(cs: seq<Contact>, snapshot: seq<Stakeholder>)
    ensures AllEvolved(Reconciled(snapshot, cs, snapshot), cs, snapshot)
  {
    if |cs| == 0 {
      forall i | 0 <= i < |snapshot|
        ensures Evolved(snapshot[i], snapshot[i], cs, snapshot)
      {
      }
    } else {
      var init := cs[..|cs| - 1];
      ReconciledEvolved(init, snapshot);
      EvolvedStep(Reconciled(snapshot, init, snapshot), init, cs[|cs| - 1], snapshot);
      assert init + [cs[|cs| - 1]] == cs;
    }
  }

  /** What the loop leaves in the store, whether or not a contact threw: the identifiers
      of the snapshot, in place, and with unique identifiers each record moved only
      forward (an email set where none was, a date moved later). */
  lemma ReconcileMeaning(contacts: seq<Contact>, snapshot: seq<Stakeholder>)
    ensures |Written(contacts, snapshot)| == |snapshot|
    ensures Ids(Written(contacts, snapshot)) == Ids(snapshot)
    ensures AllEvolved(Written(contacts, snapshot), contacts, snapshot)
    ensures UniqueIds(snapshot) ==> forall i :: 0 <= i < |snapshot| ==>
              UpdatedForward(snapshot[i], Written(contacts, snapshot)[i])
  {
    var done := contacts[..FirstThrow(contacts, snapshot)];
    var after := Reconciled(snapshot, done, snapshot);
    ReconciledEvolved(done, snapshot);
    PrefixIn(contacts, |done|);
    WidenAll(after, done, contacts, snapshot);
    if UniqueIds(snapshot) {
      forall i | 0 <= i < |snapshot|
        ensures UpdatedForward(snapshot[i], after[i])
      {
        EvolvedForward(snapshot, i, after[i], contacts);
      }
    }
  }

  /** The match-or-create loop over the contacts, against the snapshot: it writes what
      Reconciled says for the contacts before the first throw, leaves the activities alone,
      fails exactly when some contact throws, and otherwise counts the contacts that took
      the update branch. */
  method ReconcileContacts(store: Store, contacts: seq<Contact>, snapshot: seq<Stakeholder>)
    returns (updated: nat, failed: bool)
    requires store.stakeholders == snapshot
    requires forall c :: c in contacts ==> |c.subjects| == 1
    modifies store
    ensures store.stakeholders == Written(contacts, snapshot)
    ensures store.activities == old(store.activities)
    ensures failed <==> AnyThrows(contacts, snapshot)
    ensures !failed ==> updated == UpdatesNeeded(contacts, snapshot)
  {
    updated, failed := 0, false;
    ghost var acts := store.activities;
    var k := 0;
    while k < |contacts|
      invariant 0 <= k <= |contacts|
      invariant store.stakeholders == Reconciled(snapshot, contacts[..k], snapshot)
      invariant store.activities == acts
      invariant forall i :: 0 <= i < k ==> !Throws(contacts[i], snapshot)
      invariant updated == UpdatesNeeded(contacts[..k], snapshot)
    {
      assert contacts[k] in contacts;
      var threw: bool;
      updated, threw := ReconcileStep(store, contacts, k, snapshot, updated);
      if threw {
        failed := true;
        FirstThrowAt(contacts, k, snapshot);
        return;
      }
      NoThrowStep(contacts, k, snapshot);
      k := k + 1;
    }
    FirstThrowAt(contacts, k, snapshot);
  }

  /** The loop stops at the first contact that throws, or runs to the end. */
  lemma FirstThrowAt(contacts: seq<Contact>, k: nat, snapshot: seq<Stakeholder>)
    requires k <= |contacts| && forall i :: 0 <= i < k ==> !Throws(contacts[i], snapshot)
    requires k < |contacts| ==> Throws(contacts[k], snapshot)
    ensures Written(contacts, snapshot) == Reconciled(snapshot, contacts[..k], snapshot)
    ensures AnyThrows(contacts, snapshot) <==> k < |contacts|
    ensures k == |contacts| ==> contacts[..k] == contacts
  {
    assert FirstThrow(contacts, snapshot) == k;
  }

  /** One turn of the loop: the contact's write, and the count when it took the update
      branch. */
  method ReconcileStep(store: Store, contacts: seq<Contact>, k: nat, snapshot: seq<Stakeholder>, updated: nat)
    returns (updated': nat, threw: bool)
    requires k < |contacts| && |contacts[k].subjects| == 1
    requires store.stakeholders == Reconciled(snapshot, contacts[..k], snapshot)
    requires updated == UpdatesNeeded(contacts[..k], snapshot)
    modifies store
    ensures store.activities == old(store.activities)
    ensures threw <==> Throws(contacts[k], snapshot)
    ensures threw ==> store.stakeholders == old(store.stakeholders)
    ensures !threw ==> store.stakeholders == Reconciled(snapshot, contacts[..k + 1], snapshot)
                       && updated' == UpdatesNeeded(contacts[..k + 1], snapshot)
  {
    PrefixStep(contacts, k, snapshot);
    var wrote;
    wrote, threw := ReconcileOne(store, contacts[k], snapshot);
    updated' := if wrote then updated + 1 else updated;
  }

  lemma NoThrowStep(contacts: seq<Contact>, k: nat, snapshot: seq<Stakeholder>)
    requires k < |contacts| && !Throws(contacts[k], snapshot)
    requires forall i :: 0 <= i < k ==> !Throws(contacts[i], snapshot)
    ensures forall i :: 0 <= i < k + 1 ==> !Throws(contacts[i], snapshot)
  {
  }

  lemma PrefixIn(contacts: seq<Contact>, n: nat)
    requires n <= |contacts|
    ensures forall c :: c in contacts[..n] ==> c in contacts
  {
    assert contacts == contacts[..n] + contacts[n..];
  }

  /** One more contact: the prefix grows by it, and so do the writes and the count. */
  lemma PrefixStep(contacts: seq<Contact>, k: nat, snapshot: seq<Stakeholder>)
    requires k < |contacts|
    ensures contacts[..k + 1] == contacts[..k] + [contacts[k]]
    ensures UpdatesNeeded(contacts[..k + 1], snapshot)
            == UpdatesNeeded(contacts[..k], snapshot) + (if NeedsUpdate(contacts[k], snapshot) then 1 else 0)
    ensures Reconciled(snapshot, contacts[..k + 1], snapshot)
            == AfterContact(Reconciled(snapshot, contacts[..k], snapshot), contacts[k], snapshot)
  {
    assert contacts[..k + 1][..k] == contacts[..k];
  }

  /** Records evolved under a prefix are evolved under all contacts, and keep their
      identifiers. */
  lemma WidenAll(current: seq<Stakeholder>, cs: seq<Contact>, ds: seq<Contact>, snapshot: seq<Stakeholder>)
    requires AllEvolved(current, cs, snapshot)
    requires forall c :: c in cs ==> c in ds
    ensures AllEvolved(current, ds, snapshot)
    ensures Ids(current) == Ids(snapshot)
  {
    forall i | 0 <= i < |snapshot|
      ensures Evolved(snapshot[i], current[i], ds, snapshot)
    {
      EvolvedWider(snapshot[i], current[i], cs, ds, snapshot);
    }
  }

  /** The loop body for one contact: a resolved contact that needs it is written through
      updateStakeholder; an unresolved one throws when its email has no '@'; nothing else
      is written. */
  method ReconcileOne(store: Store, contact: Contact, snapshot: seq<Stakeholder>)
    returns (wrote: bool, threw: bool)
    requires |contact.subjects| == 1
    modifies store
    ensures store.stakeholders == AfterContact(old(store.stakeholders), contact, snapshot)
    ensures store.activities == old(store.activities)
    ensures threw <==> Throws(contact, snapshot)
    ensures wrote <==> NeedsUpdate(contact, snapshot)
  {
    wrote, threw := false, false;
    var found := MatchStakeholder(contact.email, contact.name, snapshot);
    if found.Some? {
      var m := found.value;
      if LacksEmail(m) || IsLater(contact.lastDate, m.lastContactDate) {
        var _ := store.UpdateStakeholder(m.id, ContactPatch(contact, m));
        wrote := true;
      }
    } else {
      var parts := Split(contact.email, '@');
      SplitSingle(contact.email, '@');
      if |parts| < 2 {
        threw := true;
        return;
      }
      var isAccountDomain := IsAccountDomain(parts[1]);
      if isAccountDomain && |contact.subjects| >= 2 {
        assert false;
      }
    }
  }

  // ---------------------------------------------------------------- logging activities

  /** existingActivities.find(a => a.date === date && a.stakeholderIds.includes(id) &&
      a.type === kind) is truthy. */
  predicate AlreadyLogged(existing: seq<Activity>, date: Day, id: string, kind: ActivityType) {
    exists a :: a in existing && a.date == date && id in a.stakeholderIds && a.kind == kind
  }

  /** snippet.substring(0, 150) */
  function Snippet(s: string): (r: string)
    ensures |r| <= 150 && |r| <= |s| && r == s[..|r|]
    ensures |s| <= 150 ==> r == s
  {
    if |s| <= 150 then s else s[..150]
  }

  function InviteSummary(subject: string): string {
    "[Auto-logged from Gmail] Meeting invite: " + subject
  }

  function EmailSummary(subject: string, snippet: string): string {
    "[Auto-logged from Gmail] Subject: " + subject + ". " + Snippet(snippet)
  }

  /** The activity one thread logs in the invite pass (`invites`) or in the email pass:
      the pass must be the thread's own, the sender must resolve, and the snapshot of
      activities must not already hold one of that type on that day for that stakeholder. */
  function LoggedBy(t: EmailThread, invites: bool, snapshot: seq<Stakeholder>, existing: seq<Activity>)
    : (r: Option<Activity>)
    ensures r.Some? <==>
              t.hasCalendarInvite == invites && MatchStakeholder(t.fromEmail, t.from, snapshot).Some?
              && !AlreadyLogged(existing, t.date, MatchStakeholder(t.fromEmail, t.from, snapshot).value.id,
                                if invites then Meeting else Email)
    ensures r.Some? ==> r.value.stakeholderIds == [MatchStakeholder(t.fromEmail, t.from, snapshot).value.id]
    ensures r.Some? ==> r.value.date == t.date && r.value.kind == (if invites then Meeting else Email)
    ensures r.Some? ==> r.value.summary == if invites then InviteSummary(t.subject) else EmailSummary(t.subject, t.snippet)
  {
    if t.hasCalendarInvite != invites then None
    else
      match MatchStakeholder(t.fromEmail, t.from, snapshot)
      case None => None
      case Some(m) =>
        var kind := if invites then Meeting else Email;
        if AlreadyLogged(existing, t.date, m.id, kind) then None
        else
          var summary := if invites then InviteSummary(t.subject) else EmailSummary(t.subject, t.snippet);
          Some(Activity("", t.date, [m.id], kind, summary))
  }

  /** What a pass asks addActivity to store: one participant, who is in the snapshot, and
      no activity of the same type that day for that participant in the snapshot. */
  predicate FreshLog(d: Activity, snapshot: seq<Stakeholder>, existing: seq<Activity>) {
    |d.stakeholderIds| == 1 && d.stakeholderIds[0] in Ids(snapshot)
    && (d.kind == Meeting || d.kind == Email)
    && !AlreadyLogged(existing, d.date, d.stakeholderIds[0], d.kind)
  }

  /** The drafts of one pass over the threads, in thread order. */
  function Drafts(ts: seq<EmailThread>, invites: bool, snapshot: seq<Stakeholder>, existing: seq<Activity>)
    : (r: seq<Activity>)
    ensures |r| <= |ts|
    ensures forall d :: d in r ==> FreshLog(d, snapshot, existing)
    ensures forall d :: d in r ==> d.kind == (if invites then Meeting else Email)
  {
    if |ts| == 0 then []
    else
      var rest := Drafts(ts[..|ts| - 1], invites, snapshot, existing);
      match LoggedBy(ts[|ts| - 1], invites, snapshot, existing)
      case None => rest
      case Some(d) =>
        var m := MatchStakeholder(ts[|ts| - 1].fromEmail, ts[|ts| - 1].from, snapshot).value;
        assert m.id in Ids(snapshot) by {
          var j :| 0 <= j < |snapshot| && snapshot[j] == m;
        }
        rest + [d]
  }

  /** A pass logs exactly the threads LoggedBy accepts: every draft is one thread's, and
      every thread it accepts has its draft in the pass. */
  lemma {:induction false} DraftsMembers(ts: seq<EmailThread>, invites: bool, snapshot: seq<Stakeholder>, existing: seq<Activity>)
    ensures forall d :: d in Drafts(ts, invites, snapshot, existing) ==>
              exists t :: t in ts && LoggedBy(t, invites, snapshot, existing) == Some(d)
    ensures forall t :: t in ts && LoggedBy(t, invites, snapshot, existing).Some? ==>
              LoggedBy(t, invites, snapshot, existing).value in Drafts(ts, invites, snapshot, existing)
  {
    if |ts| > 0 {
      var init := ts[..|ts| - 1];
      var last := ts[|ts| - 1];
      assert ts == init + [last];
      assert forall t :: t in ts <==> t in init || t == last;
      DraftsMembers(init, invites, snapshot, existing);
    }
  }

  /** The dedup only looks at the activities read before the sync: two senders who both
      resolve to one stakeholder and wrote on the same day both get an Email logged. */
  lemma SameDayTwice(t1: EmailThread, t2: EmailThread, snapshot: seq<Stakeholder>, existing: seq<Activity>)
    requires LoggedBy(t1, false, snapshot, existing).Some?
    requires LoggedBy(t2, false, snapshot, existing).Some?
    requires MatchStakeholder(t1.fromEmail, t1.from, snapshot) == MatchStakeholder(t2.fromEmail, t2.from, snapshot)
    requires t1.date == t2.date
    ensures var r := Drafts([t1, t2], false, snapshot, existing);
            |r| == 2 && r[0].stakeholderIds == r[1].stakeholderIds
            && r[0].date == r[1].date && r[0].kind == r[1].kind == Email
  {
    assert [t1, t2][..1] == [t1];
    assert [t1][..0] == [];
  }

  /** One pass of addActivity calls: the invite pass over meetingInvites, or the email
      pass over all threads. */
  method LogPass(store: Store, threads: seq<EmailThread>, invites: bool,
                 snapshot: seq<Stakeholder>, existing: seq<Activity>) returns (count: nat)
    modifies store
    ensures store.stakeholders == old(store.stakeholders)
    ensures store.activities == Appended(old(store.activities), Drafts(threads, invites, snapshot, existing))
    ensures count == |Drafts(threads, invites, snapshot, existing)|
  {
    count := 0;
    ghost var base := store.activities;
    ghost var people := store.stakeholders;
    for k := 0 to |threads|
      invariant store.stakeholders == people
      invariant store.activities == Appended(base, Drafts(threads[..k], invites, snapshot, existing))
      invariant count == |Drafts(threads[..k], invites, snapshot, existing)|
    {
      count := LogOne(store, threads, k, invites, snapshot, existing, base, count);
    }
    assert threads[..|threads|] == threads;
  }

  /** One thread of a pass: addActivity with its draft, if it logs one. */
  method LogOne(store: Store, threads: seq<EmailThread>, k: nat, invites: bool,
                snapshot: seq<Stakeholder>, existing: seq<Activity>, ghost base: seq<Activity>, count: nat)
    returns (count': nat)
    requires k < |threads|
    requires store.activities == Appended(base, Drafts(threads[..k], invites, snapshot, existing))
    requires count == |Drafts(threads[..k], invites, snapshot, existing)|
    modifies store
    ensures store.stakeholders == old(store.stakeholders)
    ensures store.activities == Appended(base, Drafts(threads[..k + 1], invites, snapshot, existing))
    ensures count' == |Drafts(threads[..k + 1], invites, snapshot, existing)|
  {
    ghost var before := Drafts(threads[..k], invites, snapshot, existing);
    ghost var after := Drafts(threads[..k + 1], invites, snapshot, existing);
    ThreadsSnoc(threads, k);
    DraftsSnoc(threads[..k], threads[k], invites, snapshot, existing);
    var draft := LoggedBy(threads[k], invites, snapshot, existing);
    if draft.Some? {
      assert after == before + [draft.value];
      AppendedSnoc(base, before, draft.value);
      var _ := store.AddActivity(draft.value);
      count' := count + 1;
    } else {
      assert after == before;
      count' := count;
    }
  }

  lemma ThreadsSnoc(threads: seq<EmailThread>, k: nat)
    requires k < |threads|
    ensures threads[..k + 1] == threads[..k] + [threads[k]]
  {
  }

  lemma DraftsSnoc(ts: seq<EmailThread>, t: EmailThread, invites: bool, snapshot: seq<Stakeholder>, existing: seq<Activity>)
    ensures LoggedBy(t, invites, snapshot, existing).None? ==>
              Drafts(ts + [t], invites, snapshot, existing) == Drafts(ts, invites, snapshot, existing)
    ensures LoggedBy(t, invites, snapshot, existing).Some? ==>
              Drafts(ts + [t], invites, snapshot, existing)
              == Drafts(ts, invites, snapshot, existing) + [LoggedBy(t, invites, snapshot, existing).value]
  {
    assert (ts + [t])[..|ts|] == ts;
  }

  /** Both passes' drafts: the invites first, then the emails. */
  function SyncLogs(threads: seq<EmailThread>, snapshot: seq<Stakeholder>, existing: seq<Activity>): seq<Activity> {
    Drafts(threads, true, snapshot, existing) + Drafts(threads, false, snapshot, existing)
  }

  /** Every log of the sync is for one known stakeholder, not logged that day with that type
      in the activities read at the start, and a thread is logged at most once, in its own
      pass. */
  lemma SyncLogsFresh(threads: seq<EmailThread>, snapshot: seq<Stakeholder>, existing: seq<Activity>)
    ensures forall d :: d in SyncLogs(threads, snapshot, existing) ==> FreshLog(d, snapshot, existing)
    ensures |SyncLogs(threads, snapshot, existing)| <= |threads|
  {
    var a := Drafts(threads, true, snapshot, existing);
    var b := Drafts(threads, false, snapshot, existing);
    assert forall d :: d in a + b ==> d in a || d in b;
    PassesSplit(threads, snapshot, existing);
  }

  /** Each thread logs in one pass at most, so the two passes together log at most one
      activity per thread. */
  lemma {:induction false} PassesSplit(threads: seq<EmailThread>, snapshot: seq<Stakeholder>, existing: seq<Activity>)
    ensures |Drafts(threads, true, snapshot, existing)| + |Drafts(threads, false, snapshot, existing)| <= |threads|
  {
    if |threads| > 0 {
      PassesSplit(threads[..|threads| - 1], snapshot, existing);
    }
  }

  /** The invite pass and then the email pass, both judged against the snapshot. */
  method LogThreads(store: Store, threads: seq<EmailThread>, snapshot: seq<Stakeholder>, existing: seq<Activity>)
    returns (count: nat)
    requires store.activities == existing
    modifies store
    ensures store.stakeholders == old(store.stakeholders)
    ensures store.activities == Appended(existing, SyncLogs(threads, snapshot, existing))
    ensures count == |SyncLogs(threads, snapshot, existing)|
  {
    var invites := LogPass(store, threads, true, snapshot, existing);
    var emails := LogPass(store, threads, false, snapshot, existing);
    AppendedConcat(existing, Drafts(threads, true, snapshot, existing), Drafts(threads, false, snapshot, existing));
    count := invites + emails;
  }

  // ---------------------------------------------------------------- the sync

  /** The error the sync reports when an unresolved sender has no '@'. */
  const SYNC_FAILED: string := "Gmail sync failed: Cannot read properties of undefined (reading 'includes')"

  /** What the sync leaves, from the records and activities it read at the start and the
      threads it collected: the contact writes up to the first throw; then either the
      error, with no activity logged, or both passes' logs appended and counted. */
  predicate SyncOutcome(threads: seq<EmailThread>, before: seq<Stakeholder>, beforeActs: seq<Activity>,
                        after: seq<Stakeholder>, afterActs: seq<Activity>, r: Result<SyncCounts, string>)
  {
    var contacts := ContactsOf(threads);
    after == Written(contacts, before)
    && (r.Err? <==> AnyThrows(contacts, before))
    && (r.Err? ==> r.error == SYNC_FAILED && afterActs == beforeActs)
    && (r.Ok? ==> afterActs == Appended(beforeActs, SyncLogs(threads, before, beforeActs))
                  && r.value == SyncCounts(0, |SyncLogs(threads, before, beforeActs)|, UpdatesNeeded(contacts, before)))
  }

  /** What the sync promises in words: identifiers kept, records only moved forward, no
      stakeholder created, and fresh one-participant logs appended; an error appends
      nothing. */
  ghost predicate SyncPromises(before: seq<Stakeholder>, beforeActs: seq<Activity>,
                               after: seq<Stakeholder>, afterActs: seq<Activity>, r: Result<SyncCounts, string>)
  {
    Ids(after) == Ids(before)
    && (UniqueIds(before) ==> forall i :: 0 <= i < |before| ==> UpdatedForward(before[i], after[i]))
    && (r.Err? ==> afterActs == beforeActs)
    && (r.Ok? ==> r.value.newContacts == 0)
    && (r.Ok? ==>
          exists drafts :: AppendedAs(beforeActs, afterActs, drafts)
            && |drafts| == r.value.newActivities
            && forall d :: d in drafts ==> FreshLog(d, before, beforeActs))
  }

  /** The exact outcome keeps the promises. */
  lemma SyncMeaning(threads: seq<EmailThread>, before: seq<Stakeholder>, beforeActs: seq<Activity>,
                    after: seq<Stakeholder>, afterActs: seq<Activity>, r: Result<SyncCounts, string>)
    requires SyncOutcome(threads, before, beforeActs, after, afterActs, r)
    ensures SyncPromises(before, beforeActs, after, afterActs, r)
  {
    ReconcileMeaning(ContactsOf(threads), before);
    if r.Ok? {
      var logs := SyncLogs(threads, before, beforeActs);
      AppendedMeaning(beforeActs, logs);
      SyncLogsFresh(threads, before, beforeActs);
      assert AppendedAs(beforeActs, afterActs, logs);
    }
  }

  /** The uniqueContacts map and the match-or-create loop. */
  method UpdateFromThreads(store: Store, threads: seq<EmailThread>) returns (updated: nat, failed: bool)
    requires UniqueSenders(threads)
    modifies store
    ensures store.stakeholders
            == Written(ContactsOf(threads), old(store.stakeholders))
    ensures failed <==> AnyThrows(ContactsOf(threads), old(store.stakeholders))
    ensures !failed ==> updated == UpdatesNeeded(ContactsOf(threads), old(store.stakeholders))
    ensures store.activities == old(store.activities)
  {
    var stakeholders := store.stakeholders;
    var contacts := AggregateContacts(threads);
    OneSubjectEach(threads);
    updated, failed := ReconcileContacts(store, contacts, stakeholders);
  }

  /** Everything after the thread loop. */
  method ProcessThreads(store: Store, threads: seq<EmailThread>) returns (r: Result<SyncCounts, string>)
    requires UniqueSenders(threads)
    modifies store
    ensures SyncOutcome(threads, old(store.stakeholders), old(store.activities), store.stakeholders, store.activities, r)
  {
    var stakeholders := store.stakeholders;
    var existingActivities := store.activities;
    var updated, failed := UpdateFromThreads(store, threads);
    if failed {
      r := Err(SYNC_FAILED);
      return;
    }
    var logged := LogThreads(store, threads, stakeholders, existingActivities);
    r := Ok(SyncCounts(0, logged, updated));
  }

  /** syncGmail after authentication and the thread listing: the outcome over the collected
      threads, and with it the promises (no stakeholder created, only missing emails filled
      in and dates moved forward, fresh logs appended, nothing appended on an error). */
  method SyncGmail(store: Store, fetched: seq<Option<seq<Message>>>) returns (r: Result<SyncCounts, string>)
    modifies store
    ensures SyncOutcome(Collected(ExtractNameFromEmail, fetched), old(store.stakeholders), old(store.activities),
                        store.stakeholders, store.activities, r)
    ensures SyncPromises(old(store.stakeholders), old(store.activities), store.stakeholders, store.activities, r)
  {
    var threads := CollectThreads(ExtractNameFromEmail, fetched);
    CollectedShape(ExtractNameFromEmail, fetched);
    r := ProcessThreads(store, threads);
    SyncMeaning(threads, old(store.stakeholders), old(store.activities), store.stakeholders, store.activities, r);
  }
}
