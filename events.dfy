/** The script as a whole, on one page: any sequence of callbacks and job
    completions, in any order the browser may deliver them. Every callback
    runs to its end, or to its first `await`, before the next one starts, so
    a run of the script is a sequence of such steps; a translation job in
    flight may resume at any step, which is a `Done` event on any member of
    the processing set. */
module Events {
  import opened Wrappers
  import opened Eligibility
  import opened Scheduler
  import opened Sources

  /** One step of a run:
      - `Rescan`: the scan of `initialize`, of the one-second interval or of
        the debounced scroll handler (lines 218-225, 269-275, 284-291);
      - `Intersect`, `Mutate`: the observers' callbacks (lines 228-264);
      - `Key`: a `keydown` event, with the image under the pointer (lines 302-309);
      - `Done`: a job in flight resumes and runs to the end of its `finally`;
      - `Relayout`: the host changes the page (scrolling, resizing, a lazy
        image receiving its real `src`, new elements). */
  datatype Event =
    | Rescan(images: seq<Img>, innerHeight: int)
    | Intersect(entries: seq<Entry>, innerHeight: int)
    | Mutate(mutations: seq<Mutation>, innerHeight: int)
    | Key(k: KeyEvent, hovered: Option<Img>)
    | Done(img: Img, outcome: Outcome, detached: bool)
    | Relayout(page: map<Img, Element>)

  /** What the host may do to the page: change any element's size, geometry
      and `src` and add elements, but keep every element it had and leave
      the `data-translated` attribute, which only the script writes. */
  predicate HostChange(p: map<Img, Element>, p': map<Img, Element>)
  {
    p.Keys <= p'.Keys && forall i :: i in p ==> p'[i].translated == p[i].translated
  }

  /** The event can happen in state `s`: the images it names are on the
      page, and a job resumes only while it is in flight. */
  predicate Enabled(s: State, e: Event)
  {
    match e
    case Rescan(images, _) => forall i :: i in images ==> i in s.page
    case Intersect(entries, _) => forall e :: e in entries ==> e.target in s.page
    case Mutate(mutations, _) => forall i :: i in Candidates(mutations) ==> i in s.page
    case Key(_, hovered) => hovered.Some? ==> hovered.value in s.page
    case Done(img, _, _) => img in s.processing && img in s.page
    case Relayout(p) => HostChange(s.page, p)
  }

  function Apply(s: State, e: Event): (r: State)
    requires Tracked(s) && Enabled(s, e)
    ensures Tracked(r) && s.page.Keys <= r.page.Keys
    ensures !e.Relayout? ==> r.page.Keys == s.page.Keys
    ensures e.Done? ==> forall i :: Pending(r, i) ==> Pending(s, i)
    ensures !e.Done? ==> forall i :: Pending(s, i) ==> Pending(r, i)
    ensures e.Relayout? ==> r.queue == s.queue && r.processing == s.processing
  {
    match e
    case Rescan(images, h) => Scan(s, images, h)
    case Intersect(entries, h) => Intersected(s, entries, h)
    case Mutate(mutations, h) => Scan(s, Candidates(mutations), h)
    case Key(k, hovered) => Keydown(s, k, hovered)
    case Done(img, o, detached) => Finish(s, img, o, detached)
    case Relayout(p) => s.(page := p)
  }

  /** Every event of the run can happen in the state the ones before it leave. */
  predicate Feasible(s: State, run: seq<Event>)
    requires Tracked(s)
    decreases |run|
  {
    run == [] || (Enabled(s, run[0]) && Feasible(Apply(s, run[0]), run[1..]))
  }

  function Run(s: State, run: seq<Event>): (r: State)
    requires Tracked(s) && Feasible(s, run)
    ensures Tracked(r) && s.page.Keys <= r.page.Keys
    ensures (forall j :: 0 <= j < |run| ==> !run[j].Done?) ==>
      forall i :: Pending(s, i) ==> Pending(r, i)
    decreases |run|
  {
    if run == [] then s
    else
      assert forall j :: 0 <= j < |run[1..]| ==> run[1..][j] == run[j + 1];
      Run(Apply(s, run[0]), run[1..])
  }

  /** One step keeps the invariant, moves every tag forward, and makes
      pending only images that had no `data-translated` attribute. */
  lemma ApplyKeeps(s: State, e: Event)
    requires Inv(s) && Enabled(s, e)
    ensures Inv(Apply(s, e)) && Progressed(s.page, Apply(s, e).page)
    ensures forall i :: Pending(Apply(s, e), i) && !Pending(s, i) ==>
      i in s.page && s.page[i].translated == None
  {
    match e
    case Rescan(images, h) =>
      ScanSpec(s, images, h);
      StartedProgressed(s, Apply(s, e));
    case Intersect(entries, h) =>
      IntersectionSpec(s, entries, h);
      StartedProgressed(s, Apply(s, e));
    case Mutate(mutations, h) =>
      MutationSpec(s, mutations, h);
      StartedProgressed(s, Apply(s, e));
    case Key(k, hovered) =>
      KeydownSpec(s, k, hovered);
      StartedProgressed(s, Apply(s, e));
    case Done(img, o, detached) => FinishSettles(s, img, o, detached);
    case Relayout(p) =>
  }

  /** The invariants of the script, for every run from a state that has
      them: never more than `MaxConcurrent` images in flight, no image
      queued twice or both queued and in flight, tags only move forward, and
      an image that carried `data-translated` when the run began and was not
      queued or in flight then is never queued or started afterwards. */
  lemma {:induction false} RunKeeps(s: State, run: seq<Event>)
    requires Inv(s) && Feasible(s, run)
    ensures Inv(Run(s, run))
    ensures |Run(s, run).processing| <= MaxConcurrent
    ensures Progressed(s.page, Run(s, run).page)
    ensures forall i :: i in s.page && s.page[i].translated != None && !Pending(s, i) ==>
      !Pending(Run(s, run), i)
    decreases |run|
  {
    if run != [] {
      var t := Apply(s, run[0]);
      ApplyKeeps(s, run[0]);
      RunKeeps(t, run[1..]);
      var r := Run(s, run);
      ProgressedTrans(s.page, t.page, r.page);
      forall i | i in s.page && s.page[i].translated != None && !Pending(s, i)
        ensures !Pending(r, i)
      {
        assert t.page[i].translated != None && !Pending(t, i);
      }
    }
  }

  /** `completed` and `skipped` are final: whatever happens next, such an
      image keeps its tag and is never queued or started again. */
  lemma TerminalStays(s: State, run: seq<Event>, img: Img)
    requires Inv(s) && Feasible(s, run)
    requires img in s.page && s.page[img].translated in {Some(Completed), Some(Skipped)}
    ensures Run(s, run).page[img].translated == s.page[img].translated
    ensures !Pending(Run(s, run), img)
  {
    RunKeeps(s, run);
  }

  /** A run in which only jobs finish. */
  predicate OnlyDone(run: seq<Event>)
  {
    forall j :: 0 <= j < |run| ==> run[j].Done?
  }

  /** Dropping the first event of a run of completions leaves one. */
  lemma OnlyDoneTail(run: seq<Event>)
    requires run != [] && OnlyDone(run)
    ensures run[0].Done? && OnlyDone(run[1..])
  {
    forall j | 0 <= j < |run[1..]| ensures run[1..][j].Done? {
      assert run[1..][j] == run[j + 1];
    }
  }

  /** One completion retires its image and touches no image that was
      neither queued nor in flight. */
  lemma DoneStep(s: State, e: Event)
    requires Inv(s) && e.Done? && Enabled(s, e)
    ensures Inv(Apply(s, e)) && Work(Apply(s, e)) == Work(s) - 1
    ensures forall i :: i in s.page && !Pending(s, i) ==>
      !Pending(Apply(s, e), i) && Apply(s, e).page[i] == s.page[i]
  {
    FinishSettles(s, e.img, e.outcome, e.detached);
  }

  /** Every completion retires one image, and while work remains some job is
      in flight: so completions can go on exactly until every image that
      was queued or in flight has been retired, and a queue never stalls. */
  lemma {:induction false} CompletionsDrain(s: State, run: seq<Event>)
    requires Inv(s) && OnlyDone(run) && Feasible(s, run)
    ensures |run| <= Work(s) && Work(Run(s, run)) == Work(s) - |run|
    ensures |run| < Work(s) ==> Run(s, run).processing != {}
    ensures forall i :: i in s.page && !Pending(s, i) ==>
      !Pending(Run(s, run), i) && Run(s, run).page[i] == s.page[i]
    decreases |run|
  {
    if run != [] {
      OnlyDoneTail(run);
      DoneStep(s, run[0]);
      CompletionsDrain(Apply(s, run[0]), run[1..]);
    }
  }

  /** Failure isolation: when all the work has been finished, in any order,
      every image that was queued or in flight ends exactly as its own
      outcome says, whatever the outcomes of the others; `outcome` gives the
      outcome each job met and `detached` whether its overlay container had
      been removed from its parent (its `parentNode` is null) when it
      resumed. */
  lemma {:induction false} AllSettle(s: State, run: seq<Event>, outcome: Img -> Outcome, detached: Img -> bool)
    requires Inv(s) && OnlyDone(run) && Feasible(s, run) && |run| == Work(s)
    requires forall j :: 0 <= j < |run| ==>
      run[j].outcome == outcome(run[j].img) && run[j].detached == detached(run[j].img)
    ensures Run(s, run).queue == [] && Run(s, run).processing == {}
    ensures forall i :: Pending(s, i) ==>
      Run(s, run).page[i] == Settle(s.page[i], outcome(i), detached(i))
    decreases |run|
  {
    if run == [] {
      assert |s.processing| == 0;
    } else {
      var e := run[0];
      var t := Apply(s, e);
      RestOfRun(run, outcome, detached);
      SettleStep(s, e, outcome, detached);
      AllSettle(t, run[1..], outcome, detached);
      CompletionsDrain(t, run[1..]);
    }
  }

  /** One completion in a run of `AllSettle`: the finished image is settled
      by its own outcome and retired; every other pending image stays
      pending and would be settled as before. */
  lemma SettleStep(s: State, e: Event, outcome: Img -> Outcome, detached: Img -> bool)
    requires Inv(s) && e.Done? && Enabled(s, e)
    requires e.outcome == outcome(e.img) && e.detached == detached(e.img)
    ensures Inv(Apply(s, e)) && Work(Apply(s, e)) == Work(s) - 1
    ensures !Pending(Apply(s, e), e.img)
    ensures Apply(s, e).page[e.img] == Settle(s.page[e.img], outcome(e.img), detached(e.img))
    ensures forall i :: Pending(s, i) && i != e.img ==>
      && Pending(Apply(s, e), i)
      && Settle(Apply(s, e).page[i], outcome(i), detached(i)) == Settle(s.page[i], outcome(i), detached(i))
  {
    FinishSettles(s, e.img, e.outcome, e.detached);
    forall i | Pending(s, i) && i != e.img
      ensures Settle(Apply(s, e).page[i], outcome(i), detached(i)) == Settle(s.page[i], outcome(i), detached(i))
    {
      SettleIgnoresTag(s.page[i], outcome(i), detached(i));
    }
  }

  /** What holds of every event of a run of completions holds of its tail. */
  lemma RestOfRun(run: seq<Event>, outcome: Img -> Outcome, detached: Img -> bool)
    requires run != [] && OnlyDone(run)
    requires forall j :: 0 <= j < |run| ==>
      run[j].outcome == outcome(run[j].img) && run[j].detached == detached(run[j].img)
    ensures OnlyDone(run[1..])
    ensures forall j :: 0 <= j < |run[1..]| ==>
      run[1..][j].outcome == outcome(run[1..][j].img) && run[1..][j].detached == detached(run[1..][j].img)
  {
    forall j | 0 <= j < |run[1..]| ensures run[1..][j] == run[j + 1] {
    }
  }

  /** Drain completeness: when the service translates every image, every
      image queued or in flight at the start ends `completed`, showing its
      translation, once all the work has been finished, and the script is
      idle. */
  lemma AllSucceed(s: State, run: seq<Event>, outcome: Img -> Outcome)
    requires Inv(s) && OnlyDone(run) && Feasible(s, run) && |run| == Work(s)
    requires forall j :: 0 <= j < |run| ==> run[j].outcome == outcome(run[j].img) && !run[j].detached
    requires forall i :: Succeeds(outcome(i))
    ensures Run(s, run).queue == [] && Run(s, run).processing == {}
    ensures forall i :: Pending(s, i) ==>
      && Run(s, run).page[i].translated == Some(Completed)
      && outcome(i).Responded? && Run(s, run).page[i].src == outcome(i).objectUrl
  {
    AllSettle(s, run, outcome, i => false);
  }

  /** How a job ends does not depend on the tag the element had. */
  lemma SettleIgnoresTag(e: Element, o: Outcome, detached: bool)
    ensures Settle(e.(translated := Some(Processing)), o, detached) == Settle(e, o, detached)
  {
  }

  // ---------------------------------------------------------------------
  // A worked example

  /** A large picture near the top of the page, not yet translated. */
  function Picture(): Element
  {
    Element(1000, 1400, 0, 1400, "https://example.org/p.jpg", None)
  }

  const Pictures: seq<Img> := [Img(1), Img(2), Img(3), Img(4), Img(5)]

  /** A page holding five such pictures, before the script has run. */
  function Gallery(): State
  {
    State([], {}, map[Img(1) := Picture(), Img(2) := Picture(), Img(3) := Picture(),
                      Img(4) := Picture(), Img(5) := Picture()])
  }

  /** The service translates every picture but the fifth, for which it
      answers 500; `url` names the object URL made from each answer. */
  function GalleryOutcome(url: Img -> string): Img -> Outcome
  {
    i => if i == Img(5) then Responded(500, "", false) else Responded(200, url(i), true)
  }

  /** Before the script runs, each of the five pictures is on the page,
      untagged and eligible in a viewport 900 px tall. */
  lemma GalleryEligible(s0: State, pictures: seq<Img>)
    requires s0 == Gallery() && pictures == Pictures
    ensures Inv(s0)
    ensures forall i | i in pictures ::
      i in s0.page && s0.page[i] == Picture() && ShouldProcessImage(s0.page[i], 900)
  {
    assert "https://example.org/p.jpg"[..4] == "http";
  }

  /** A scan of images that are all untagged and eligible queues or starts
      every one of them and changes nothing about them but their tags. */
  lemma ScanAdmitsAll(s: State, images: seq<Img>, innerHeight: int)
    requires Inv(s)
    requires forall i | i in images ::
      i in s.page && s.page[i].translated == None && ShouldProcessImage(s.page[i], innerHeight)
    ensures Inv(Scan(s, images, innerHeight))
    ensures forall i | i in images ::
      && Pending(Scan(s, images, innerHeight), i)
      && Scan(s, images, innerHeight).page[i].(translated := None) == s.page[i]
  {
    ScanSpec(s, images, innerHeight);
  }

  /** A scan of the five pictures in a viewport 900 px tall queues or
      starts every one of them, and touches nothing but their tags. */
  lemma GalleryScan(s0: State, pictures: seq<Img>)
    requires s0 == Gallery() && pictures == Pictures
    ensures Inv(Scan(s0, pictures, 900))
    ensures forall i | i in pictures ::
      && Pending(Scan(s0, pictures, 900), i)
      && Scan(s0, pictures, 900).page[i].(translated := None) == Picture()
  {
    GalleryEligible(s0, pictures);
    ScanAdmitsAll(s0, pictures, 900);
  }

  /** How one of the first four pictures ends. */
  lemma GalleryEnds(s: State, r: State, url: Img -> string, pictures: seq<Img>, j: nat)
    requires pictures == Pictures && j < 4
    requires forall i | i in pictures :: i in s.page && s.page[i].(translated := None) == Picture()
    requires forall i | i in pictures :: i in r.page && r.page[i] == Settle(s.page[i], GalleryOutcome(url)(i), false)
    ensures r.page[Img(j + 1)] == Picture().(src := url(Img(j + 1)), translated := Some(Completed))
  {
    assert pictures[j] == Img(j + 1) && Img(j + 1) != Img(5);
  }

  /** How the fifth picture ends. */
  lemma GalleryFails(s: State, r: State, url: Img -> string, pictures: seq<Img>)
    requires pictures == Pictures
    requires forall i | i in pictures :: i in s.page && s.page[i].(translated := None) == Picture()
    requires forall i | i in pictures :: i in r.page && r.page[i] == Settle(s.page[i], GalleryOutcome(url)(i), false)
    ensures r.page[Img(5)] == Picture().(translated := Some(Skipped))
  {
    assert pictures[4] == Img(5);
  }

  /** The end state of the example: idle, the first four pictures showing
      their translations and `completed`, the fifth with its original `src`
      and `skipped`. */
  predicate GalleryDone(r: State, url: Img -> string)
  {
    && r.queue == [] && r.processing == {}
    && (forall i | i in Pictures[..4] ::
          i in r.page && r.page[i] == Picture().(src := url(i), translated := Some(Completed)))
    && Img(5) in r.page && r.page[Img(5)] == Picture().(translated := Some(Skipped))
  }

  lemma GalleryFinal(s: State, r: State, url: Img -> string, pictures: seq<Img>)
    requires pictures == Pictures && r.queue == [] && r.processing == {}
    requires forall i | i in pictures :: i in s.page && s.page[i].(translated := None) == Picture()
    requires forall i | i in pictures :: i in r.page && r.page[i] == Settle(s.page[i], GalleryOutcome(url)(i), false)
    ensures GalleryDone(r, url)
  {
    GalleryEnds(s, r, url, pictures, 0);
    GalleryEnds(s, r, url, pictures, 1);
    GalleryEnds(s, r, url, pictures, 2);
    GalleryEnds(s, r, url, pictures, 3);
    GalleryFails(s, r, url, pictures);
    assert Pictures[..4] == [Img(1), Img(2), Img(3), Img(4)];
  }

  /** Whatever order the five jobs resume in (three at most in flight at
      once), once all have finished the page ends as `GalleryDone` says. */
  lemma GalleryExample(s0: State, pictures: seq<Img>, run: seq<Event>, url: Img -> string)
    requires s0 == Gallery() && pictures == Pictures
    requires OnlyDone(run) && Feasible(Scan(s0, pictures, 900), run)
    requires |run| == Work(Scan(s0, pictures, 900))
    requires forall j :: 0 <= j < |run| ==>
      run[j].outcome == GalleryOutcome(url)(run[j].img) && !run[j].detached
    ensures GalleryDone(Run(Scan(s0, pictures, 900), run), url)
  {
    GalleryScan(s0, pictures);
    GalleryRun(Scan(s0, pictures, 900), run, url, pictures);
  }

  /** The completions, from any state in which the five pictures wait or
      are in flight. */
  lemma GalleryRun(s: State, run: seq<Event>, url: Img -> string, pictures: seq<Img>)
    requires pictures == Pictures && Inv(s)
    requires forall i | i in pictures :: Pending(s, i) && s.page[i].(translated := None) == Picture()
    requires OnlyDone(run) && Feasible(s, run) && |run| == Work(s)
    requires forall j :: 0 <= j < |run| ==>
      run[j].outcome == GalleryOutcome(url)(run[j].img) && !run[j].detached
    ensures GalleryDone(Run(s, run), url)
  {
    AllSettle(s, run, GalleryOutcome(url), i => false);
    GalleryFinal(s, Run(s, run), url, pictures);
  }
}
