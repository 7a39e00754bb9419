/** The bounded work queue and the per-image state machine
    (image-translator.js:38-40, 123-216), as functions on a value that holds
    the two module-level sets and the page's elements. The class in
    translator.dfy runs the same steps in place and is specified by these
    functions. */
module Scheduler {
  import opened Wrappers
  import opened Eligibility

  /** Reference identity of one `<img>` element. */
  datatype Img = Img(id: nat)

  /** `queue` keeps the insertion order of the JS `Set`; `processing` is the
      set of images whose translation has started and not finished; `page`
      maps every element of the document to what the script sees of it. */
  datatype State = State(queue: seq<Img>, processing: set<Img>, page: map<Img, Element>)

  /** How a translation job ended once it resumed after its first suspension:
      `fetch(img.src)` or reading its body rejected; the userscript request
      failed in transport (its `onerror`, or no request API available); or
      the service answered with `status`, and `decodes` tells whether the
      object URL `objectUrl` made from the answer loaded as an image. */
  datatype Outcome =
    | FetchFailed
    | TransportFailed
    | Responded(status: int, objectUrl: string, decodes: bool)

  predicate NoDup(q: seq<Img>)
  {
    forall a, b | 0 <= a < b < |q| :: q[a] != q[b]
  }

  /** The image is queued or has been started and not finished. */
  predicate Pending(s: State, i: Img)
  {
    i in s.queue || i in s.processing
  }

  /** Every queued image is an element of the page. */
  predicate Tracked(s: State)
  {
    forall i :: i in s.queue ==> i in s.page
  }

  /** The scheduler invariant: no image queued twice, the queue and the
      processing set disjoint, every started image tagged `processing`, and
      never more than `MaxConcurrent` images in flight. */
  predicate Valid(s: State)
  {
    && Disjoint(s)
    && (forall i :: i in s.processing ==> i in s.page && s.page[i].translated == Some(Processing))
    && |s.processing| <= MaxConcurrent
  }

  /** No queued image carries a `data-translated` attribute. Every candidate
      source checks this before it calls `addToQueue`. */
  predicate QueueUntagged(s: State)
  {
    forall i :: i in s.queue ==> i in s.page && s.page[i].translated == None
  }

  /** The drain loop has run to its end: work waits only while every slot is taken. */
  predicate Saturated(s: State)
  {
    s.queue != [] ==> |s.processing| >= MaxConcurrent
  }

  /** What holds between any two callbacks of the script. */
  predicate Inv(s: State)
  {
    Valid(s) && QueueUntagged(s) && Saturated(s)
  }

  /** The states of the `data-translated` attribute, in the order the
      lifecycle moves through them; `completed` and `skipped` are both last. */
  function Rank(t: Option<Tag>): nat
  {
    match t
    case None => 0
    case Some(Processing) => 1
    case Some(_) => 2
  }

  predicate Forward(a: Option<Tag>, b: Option<Tag>)
  {
    a == b || Rank(a) < Rank(b)
  }

  /** Between two pages no element disappeared and every tag moved forward
      or stayed; in particular a `completed` or `skipped` tag stayed. */
  predicate Progressed(p: map<Img, Element>, p': map<Img, Element>)
  {
    p.Keys <= p'.Keys &&
    forall i :: i in p ==> Forward(p[i].translated, p'[i].translated)
  }

  /** Tags that moved forward twice moved forward. */
  lemma ProgressedTrans(p: map<Img, Element>, q: map<Img, Element>, r: map<Img, Element>)
    requires Progressed(p, q) && Progressed(q, r)
    ensures Progressed(p, r)
  {
    forall i | i in p ensures Forward(p[i].translated, r[i].translated) {
      assert Forward(q[i].translated, r[i].translated);
    }
  }

  /** Everything but the tags is as it was. */
  predicate SameContent(p: map<Img, Element>, p': map<Img, Element>)
  {
    p.Keys == p'.Keys &&
    forall i :: i in p ==> p'[i] == p[i].(translated := p'[i].translated)
  }

  /** The synchronous prefix of `translateImage` (lines 126-127): tag the
      image `processing` and put it into the processing set. */
  function Start(s: State, img: Img): (r: State)
    requires img in s.page
    ensures img in r.processing && img in r.page && r.page[img].translated == Some(Processing)
    ensures r.queue == s.queue && r.page.Keys == s.page.Keys
  {
    State(s.queue, s.processing + {img}, s.page[img := s.page[img].(translated := Some(Processing))])
  }

  /** One iteration of the drain loop (lines 205-207): dequeue the
      first-inserted image and start it. */
  function Step(s: State): (r: State)
    requires Tracked(s) && s.queue != []
    ensures r.queue == s.queue[1..] && r.processing == s.processing + {s.queue[0]}
    ensures r.page == s.page[s.queue[0] := s.page[s.queue[0]].(translated := Some(Processing))]
    ensures r.page.Keys == s.page.Keys && Tracked(r)
    ensures forall i :: Pending(r, i) <==> Pending(s, i)
  {
    assert s.queue == [s.queue[0]] + s.queue[1..];
    Start(s.(queue := s.queue[1..]), s.queue[0])
  }

  /** The queue is duplicate-free, every queued image is on the page and none is in flight. */
  predicate Disjoint(s: State)
  {
    NoDup(s.queue) && (forall i :: i in s.queue ==> i in s.page && i !in s.processing)
  }

  /** A step keeps the queue disjoint from the processing set and fills one slot. */
  lemma StepDisjoint(s: State)
    requires Disjoint(s) && s.queue != []
    ensures Disjoint(Step(s)) && |Step(s).processing| == |s.processing| + 1
  {
    var q := s.queue;
    assert q[0] !in s.processing;
    HeadNotInTail(q);
    forall a, b | 0 <= a < b < |q[1..]| ensures q[1..][a] != q[1..][b] {
      assert q[1..][a] == q[a + 1] && q[1..][b] == q[b + 1];
    }
  }

  /** A step taken while a slot is free keeps the invariant and fills one slot. */
  lemma StepValid(s: State)
    requires Valid(s) && s.queue != [] && |s.processing| < MaxConcurrent
    ensures Valid(Step(s)) && |Step(s).processing| == |s.processing| + 1
  {
    StepDisjoint(s);
  }

  /** How many images one run of `processQueue` starts. */
  function Admitted(s: State): nat
  {
    if |s.processing| >= MaxConcurrent then 0
    else if |s.queue| <= MaxConcurrent - |s.processing| then |s.queue|
    else MaxConcurrent - |s.processing|
  }

  /** `processQueue` (lines 202-209): while a slot is free and work waits,
      take the first-inserted image out of the queue and start it. */
  function Drain(s: State): (r: State)
    requires Tracked(s)
    ensures r.page.Keys == s.page.Keys && Tracked(r)
    ensures forall i :: Pending(r, i) <==> Pending(s, i)
    ensures |r.processing| >= MaxConcurrent || r.queue == []
    decreases |s.queue|
  {
    if |s.processing| < MaxConcurrent && |s.queue| > 0 then Drain(Step(s)) else s
  }

  /** Draining keeps the scheduler invariant, whatever the state it starts from. */
  lemma {:induction false} DrainValid(s: State)
    requires Valid(s)
    ensures Valid(Drain(s))
    decreases |s.queue|
  {
    if |s.processing| < MaxConcurrent && |s.queue| > 0 {
      StepValid(s);
      DrainValid(Step(s));
    }
  }

  /** `addToQueue` (lines 211-216): an image already queued or in flight is
      ignored; any other is appended and the queue drained. */
  function Add(s: State, img: Img): (r: State)
    requires Tracked(s) && img in s.page
    ensures r.page.Keys == s.page.Keys && Tracked(r)
    ensures forall i :: Pending(r, i) <==> Pending(s, i) || i == img
  {
    if img !in s.queue && img !in s.processing then
      Drain(s.(queue := s.queue + [img]))
    else
      s
  }

  /** The translation succeeded: the service answered 200 and the answer
      decoded as an image (lines 148-151, 164-173). */
  predicate Succeeds(o: Outcome)
  {
    o.Responded? && o.status == 200 && o.decodes
  }

  /** The resumed part of `translateImage` for one element, up to its
      `finally`. On success `src` becomes the object URL and the tag
      `completed`, unless the overlay container had been removed from its
      parent meanwhile (its `parentNode` is null): then putting the image
      back (line 182) throws and
      the handler at line 189 overwrites the tag with `skipped`, with `src`
      already swapped. Every failure only tags the element `skipped`. */
  function Settle(e: Element, o: Outcome, detached: bool): (r: Element)
    ensures r.translated == Some(Completed) <==> Succeeds(o) && !detached
    ensures r.translated == Some(Skipped) <==> !Succeeds(o) || detached
    ensures r.src == if Succeeds(o) then o.objectUrl else e.src
    ensures r == e.(src := r.src, translated := r.translated)
  {
    if Succeeds(o) then
      var done := e.(src := o.objectUrl, translated := Some(Completed));
      if detached then done.(translated := Some(Skipped)) else done
    else
      e.(translated := Some(Skipped))
  }

  /** All of `translateImage` after the job resumed, including its `finally`
      (lines 196-199): settle the element, take it out of the processing set
      and drain the queue again. */
  function Finish(s: State, img: Img, o: Outcome, detached: bool): (r: State)
    requires Tracked(s) && img in s.processing && img in s.page
    ensures r.page.Keys == s.page.Keys && Tracked(r)
    ensures forall i :: Pending(r, i) ==> Pending(s, i)
    ensures |r.processing| >= MaxConcurrent || r.queue == []
  {
    Drain(Released(s, img, o, detached))
  }

  /** The state `processQueue` starts from in the `finally` block: the
      element settled and the image out of the processing set. */
  function Released(s: State, img: Img, o: Outcome, detached: bool): (r: State)
    requires img in s.page
    ensures img !in r.processing && r.processing <= s.processing && r.queue == s.queue
    ensures r.page.Keys == s.page.Keys && r.page[img].translated in {Some(Completed), Some(Skipped)}
    ensures forall i :: i in s.page && i != img ==> r.page[i] == s.page[i]
  {
    State(s.queue, s.processing - {img}, s.page[img := Settle(s.page[img], o, detached)])
  }

  // ---------------------------------------------------------------------
  // Properties of the drain loop

  /** Splitting the first `k` items of a queue into its head and the rest. */
  lemma Front(q: seq<Img>, k: nat)
    requires 1 <= k <= |q|
    ensures q[..k] == [q[0]] + q[1..][..k - 1]
    ensures q[1..][k - 1..] == q[k..]
    ensures forall i :: i in q[..k] <==> i == q[0] || i in q[1..][..k - 1]
  {
    assert q[..k] == [q[0]] + q[1..][..k - 1];
  }

  /** The head of a duplicate-free queue does not occur in its tail. */
  lemma HeadNotInTail(q: seq<Img>)
    requires NoDup(q) && q != []
    ensures q[0] !in q[1..]
  {
    forall j | 0 <= j < |q| - 1 ensures q[1..][j] != q[0] {
      assert q[1..][j] == q[j + 1];
    }
  }

  /** In a duplicate-free queue nothing occurs both before and after position `k`. */
  lemma HeadsAndTailsDisjoint(q: seq<Img>, k: nat, i: Img)
    requires NoDup(q) && k <= |q| && i in q[k..]
    ensures i !in q[..k]
  {
    var b :| 0 <= b < |q[k..]| && q[k..][b] == i;
    assert q[k + b] == i;
    forall a | 0 <= a < k ensures q[..k][a] != i {
      assert q[..k][a] == q[a];
    }
  }

  /** One run of the drain loop takes exactly the first `Admitted(s)` images
      off the front of the queue... */
  lemma {:induction false} DrainQueue(s: State)
    requires Valid(s)
    ensures Admitted(s) <= |s.queue|
    ensures Drain(s).queue == s.queue[Admitted(s)..]
    decreases |s.queue|
  {
    if |s.processing| < MaxConcurrent && |s.queue| > 0 {
      var q, k := s.queue, Admitted(s);
      StepValid(s);
      var t := Step(s);
      DrainQueue(t);
      assert Drain(s) == Drain(t);
      assert Admitted(t) == k - 1;
      assert t.queue[k - 1..] == q[k..];
    }
  }

  /** ...and puts them into the processing set. */
  lemma {:induction false} DrainStarts(s: State)
    requires Disjoint(s)
    ensures Admitted(s) <= |s.queue|
    ensures forall i :: i in Drain(s).processing <==> i in s.processing || i in s.queue[..Admitted(s)]
    decreases |s.queue|
  {
    if |s.processing| < MaxConcurrent && |s.queue| > 0 {
      var q, k := s.queue, Admitted(s);
      StepDisjoint(s);
      var t := Step(s);
      assert Admitted(t) == k - 1;
      DrainStarts(t);
      Front(q, k);
    }
  }

  /** The images that drain starts are tagged `processing`; every other
      element of the page is left as it was. */
  lemma {:induction false} DrainPage(s: State)
    requires Valid(s)
    ensures Admitted(s) <= |s.queue|
    ensures forall i :: i in s.page ==>
      Drain(s).page[i] == if i in s.queue[..Admitted(s)] then s.page[i].(translated := Some(Processing)) else s.page[i]
    decreases |s.queue|
  {
    if |s.processing| < MaxConcurrent && |s.queue| > 0 {
      var q, k := s.queue, Admitted(s);
      StepValid(s);
      var t := Step(s);
      DrainPage(t);
      assert Drain(s) == Drain(t);
      assert Admitted(t) == k - 1;
      Front(q, k);
      HeadNotInTail(q);
    }
  }

  /** From `s` to `r` the script has only started images: the processing
      set grew, and an element changed only by being tagged `processing`
      when it had no tag, and it is in flight now. */
  predicate OnlyStarted(s: State, r: State)
  {
    && s.processing <= r.processing
    && r.page.Keys == s.page.Keys
    && forall i :: i in s.page ==>
         || r.page[i] == s.page[i]
         || (i in r.processing && s.page[i].translated == None &&
             r.page[i] == s.page[i].(translated := Some(Processing)))
  }

  /** The images a drain starts were untagged; so under the invariant the
      drain only moves tags forward, and it touches nothing but tags. */
  lemma DrainProgress(s: State)
    requires Valid(s) && QueueUntagged(s)
    ensures Progressed(s.page, Drain(s).page) && SameContent(s.page, Drain(s).page)
    ensures OnlyStarted(s, Drain(s))
    ensures QueueUntagged(Drain(s)) && Saturated(Drain(s))
  {
    var r, k := Drain(s), Admitted(s);
    DrainQueue(s);
    DrainPage(s);
    DrainStarts(s);
    forall i | i in s.page
      ensures Forward(s.page[i].translated, r.page[i].translated)
      ensures r.page[i] == s.page[i].(translated := r.page[i].translated)
      ensures r.page[i] == s.page[i] || (i in r.processing && s.page[i].translated == None &&
                                         r.page[i] == s.page[i].(translated := Some(Processing)))
    {
      if i in s.queue[..k] {
        assert s.page[i].translated == None;
      }
    }
    forall i | i in r.queue ensures r.page[i].translated == None {
      HeadsAndTailsDisjoint(s.queue, k, i);
    }
  }

  /** Each drain moves images from the queue into the processing set, so
      the amount of work the script holds is what it was. */
  function Work(s: State): nat
  {
    |s.queue| + |s.processing|
  }

  lemma {:induction false} DrainWork(s: State)
    requires Valid(s)
    ensures Work(Drain(s)) == Work(s)
    decreases |s.queue|
  {
    if |s.processing| < MaxConcurrent && |s.queue| > 0 {
      StepValid(s);
      DrainWork(Step(s));
    }
  }

  // ---------------------------------------------------------------------
  // Properties of admission and of the end of a job

  /** `addToQueue` on an image without a tag (the only kind its callers
      pass) keeps the invariant: the image is queued at most once, never
      both queued and in flight, and the cap holds; besides queueing it,
      the call only starts images. */
  lemma AddKeeps(s: State, img: Img)
    requires Inv(s) && img in s.page && s.page[img].translated == None
    ensures Inv(Add(s, img)) && OnlyStarted(s, Add(s, img))
    ensures Pending(Add(s, img), img)
  {
    if img !in s.queue && img !in s.processing {
      var t := s.(queue := s.queue + [img]);
      forall a, b | 0 <= a < b < |t.queue| ensures t.queue[a] != t.queue[b] {
        if b == |s.queue| {
          assert t.queue[a] == s.queue[a];
        }
      }
      DrainValid(t);
      DrainProgress(t);
    }
  }

  /** Starting images in two goes is starting images. */
  lemma OnlyStartedTrans(s: State, t: State, r: State)
    requires OnlyStarted(s, t) && OnlyStarted(t, r)
    ensures OnlyStarted(s, r)
  {
    forall i | i in s.page
      ensures || r.page[i] == s.page[i]
              || (i in r.processing && s.page[i].translated == None &&
                  r.page[i] == s.page[i].(translated := Some(Processing)))
    {
      if t.page[i] != s.page[i] {
        assert t.page[i].translated == Some(Processing);
      }
    }
  }

  /** Starting images moves tags forward. */
  lemma StartedProgressed(s: State, r: State)
    requires OnlyStarted(s, r)
    ensures Progressed(s.page, r.page)
  {
    forall i | i in s.page ensures Forward(s.page[i].translated, r.page[i].translated) {
      if r.page[i] != s.page[i] {
        assert s.page[i].translated == None;
      }
    }
  }

  /** Calling `addToQueue` twice on the same image is calling it once: the
      second call finds it queued or in flight. */
  lemma AddTwice(s: State, img: Img)
    requires Tracked(s) && img in s.page
    ensures Add(Add(s, img), img) == Add(s, img)
  {
    assert Pending(Add(s, img), img);
  }

  /** The end of one job, under the invariant: the image leaves the pipeline
      for good with the tag and `src` that `Settle` gives it, no other image
      leaves or joins, the drain that follows only starts queued images,
      every tag moved forward and the invariant still holds. */
  lemma FinishSettles(s: State, img: Img, o: Outcome, detached: bool)
    requires Inv(s) && img in s.processing
    ensures var r := Finish(s, img, o, detached);
      && Inv(r)
      && r.page[img] == Settle(s.page[img], o, detached)
      && (forall i :: Pending(r, i) <==> Pending(s, i) && i != img)
      && Work(r) == Work(s) - 1
      && Progressed(s.page, r.page)
      && forall i :: i in s.page && i != img ==>
           || r.page[i] == s.page[i]
           || (i in s.queue && i in r.processing &&
               r.page[i] == s.page[i].(translated := Some(Processing)))
  {
    var t := Released(s, img, o, detached);
    ReleasedKeeps(s, img, o, detached);
    DrainMoves(t);
    ProgressedTrans(s.page, t.page, Drain(t).page);
  }

  /** The drain loop only moves work from the queue to the processing set:
      it restores the invariant, keeps the set of pending images and their
      number, and changes no element but by tagging a queued one. */
  lemma DrainMoves(s: State)
    requires Valid(s) && QueueUntagged(s)
    ensures var r := Drain(s);
      && Inv(r)
      && (forall i :: Pending(r, i) <==> Pending(s, i))
      && Work(r) == Work(s)
      && Progressed(s.page, r.page)
      && forall i :: i in s.page ==>
           || r.page[i] == s.page[i]
           || (i in s.queue && i in r.processing &&
               r.page[i] == s.page[i].(translated := Some(Processing)))
  {
    DrainValid(s);
    DrainProgress(s);
    DrainStarts(s);
    DrainQueue(s);
    DrainWork(s);
  }

  /** Settling the element and leaving the processing set keeps the
      scheduler valid, retires exactly that image and moves its tag on. */
  lemma ReleasedKeeps(s: State, img: Img, o: Outcome, detached: bool)
    requires Inv(s) && img in s.processing
    ensures var t := Released(s, img, o, detached);
      && Valid(t) && QueueUntagged(t)
      && Work(t) == Work(s) - 1
      && (forall i :: Pending(t, i) <==> Pending(s, i) && i != img)
      && t.page.Keys == s.page.Keys && Progressed(s.page, t.page)
      && (forall i :: i in s.page && i != img ==> t.page[i] == s.page[i])
  {
    var t := Released(s, img, o, detached);
    assert |t.processing| == |s.processing| - 1;
  }

  /** A translated element shows an object URL, which `URL.createObjectURL`
      (line 161) always makes a `blob:` URL; the filter refuses it whatever
      its tag, so only the keyboard shortcut could pick it up again. */
  lemma TranslatedRefused(e: Element, o: Outcome, detached: bool, innerHeight: int)
    requires Succeeds(o) && StartsWith(o.objectUrl, "blob:")
    ensures !Fetchable(Settle(e, o, detached).src)
    ensures !ShouldProcessImage(Settle(e, o, detached).(translated := None), innerHeight)
  {
    var src := Settle(e, o, detached).src;
    assert src[..5] == "blob:";
    assert src[0] == 'b';
    assert src[..4][0] == 'b' && "http"[0] == 'h';
    assert src[..5][0] == 'b' && "data:"[0] == 'd';
  }

  /** How a job ends, as the element shows it: `completed` exactly when the
      service answered 200 with a decodable image and the overlay container
      still had a parent; `skipped` otherwise; `src` changes exactly on a
      validated answer, to its object URL; nothing else about the element
      changes. A failure therefore leaves `src` as it was. */
  lemma FinishOutcome(s: State, img: Img, o: Outcome, detached: bool)
    requires Inv(s) && img in s.processing
    ensures var e, e' := s.page[img], Finish(s, img, o, detached).page[img];
      && (e'.translated == Some(Completed) <==> Succeeds(o) && !detached)
      && (e'.translated == Some(Skipped) <==> !Succeeds(o) || detached)
      && e'.src == (if Succeeds(o) then o.objectUrl else e.src)
      && e' == e.(src := e'.src, translated := e'.translated)
  {
    FinishSettles(s, img, o, detached);
  }
}
