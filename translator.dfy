/** The userscript's module-level state and its functions that change it
    (image-translator.js:38-40, 123-309), run in place on an object. Each
    method is specified by the function of Scheduler or Sources that says
    what it does to the state; the invariants are proved about those
    functions. */
module Translator {
  import opened Wrappers
  import opened Eligibility
  import opened Scheduler
  import opened Sources

  /** `queue` and `processing`, the two `Set`s of the script, with the
      elements of the page the script reads and writes: their natural size,
      geometry, `src` and `data-translated` attribute. The host, not the
      script, changes an element's size, geometry or `src` between two
      callbacks; it does so by assigning `page`. */
  class ImageTranslator {
    var queue: seq<Img>
    var processing: set<Img>
    var page: map<Img, Element>

    /** The state as the functions of Scheduler see it. */
    function Snapshot(): State
      reads this
    {
      State(queue, processing, page)
    }

    /** Lines 39-40: both sets start empty. */
    constructor (initial: map<Img, Element>)
      ensures Snapshot() == State([], {}, initial)
    {
      queue := [];
      processing := {};
      page := initial;
    }

    /** The synchronous prefix of `translateImage` (lines 126-127), which
        runs before its first `await`: tag the image and count it as in
        flight. */
    method Start(img: Img)
      requires img in page
      modifies this
      ensures Snapshot() == Scheduler.Start(old(Snapshot()), img)
    {
      page := page[img := page[img].(translated := Some(Processing))];
      processing := processing + {img};
    }

    /** `processQueue` (lines 202-209). Every iteration starts one image,
        and since the start is synchronous the next test of the loop sees
        the processing set it left; so no state the loop passes through
        breaks the invariant of a valid state, the cap included. */
    method ProcessQueue()
      requires Tracked(Snapshot())
      modifies this
      ensures Snapshot() == Drain(old(Snapshot()))
      ensures Valid(old(Snapshot())) ==> Valid(Snapshot())
    {
      while |processing| < MaxConcurrent && |queue| > 0
        invariant Tracked(Snapshot())
        invariant Drain(Snapshot()) == Drain(old(Snapshot()))
        invariant Valid(old(Snapshot())) ==> Valid(Snapshot())
        decreases |queue|
      {
        ghost var before := Snapshot();
        if Valid(before) {
          StepValid(before);
        }
        var img := queue[0];
        queue := queue[1..];
        Start(img);
        assert Snapshot() == Step(before);
      }
    }

    /** `addToQueue` (lines 211-216). */
    method AddToQueue(img: Img)
      requires Tracked(Snapshot()) && img in page
      modifies this
      ensures Snapshot() == Add(old(Snapshot()), img)
    {
      if img !in queue && img !in processing {
        queue := queue + [img];
        ProcessQueue();
      }
    }

    /** The rest of `translateImage` (lines 132-199), once the job resumes
        with outcome `o`. On a validated answer `src` is swapped and the tag
        set to `completed` (lines 172-173); if the overlay container has
        been removed from its parent meanwhile (its `parentNode` is null),
        moving the image back out of it (line 182)
        throws and the handler tags it `skipped` (line 189). Every failure
        only tags it `skipped`. The `finally` block takes it out of the
        processing set and drains the queue (lines 196-199). */
    method Finish(img: Img, o: Outcome, detached: bool)
      requires Tracked(Snapshot()) && img in processing && img in page
      modifies this
      ensures Snapshot() == Scheduler.Finish(old(Snapshot()), img, o, detached)
    {
      ghost var settled := Settle(page[img], o, detached);
      if Succeeds(o) {
        page := page[img := page[img].(src := o.objectUrl)];
        page := page[img := page[img].(translated := Some(Completed))];
        if detached {
          page := page[img := page[img].(translated := Some(Skipped))];
        }
      } else {
        page := page[img := page[img].(translated := Some(Skipped))];
      }
      assert page == old(page)[img := settled];
      processing := processing - {img};
      ProcessQueue();
    }

    /** `if (shouldProcessImage(img)) addToQueue(img)`, the step every
        automatic source takes for each image it is handed (lines 221-223,
        232-234, 246-248, 256-258, 272-274). */
    method Consider(img: Img, innerHeight: int)
      requires Tracked(Snapshot()) && img in page
      modifies this
      ensures Snapshot() == Admit(old(Snapshot()), img, innerHeight)
    {
      if ShouldProcessImage(page[img], innerHeight) {
        AddToQueue(img);
      }
    }

    /** The `for (const img of images)` loop over a list of images, each
        through `Consider` (lines 220-224, 255-260, 270-275). */
    method ConsiderEach(images: seq<Img>, innerHeight: int)
      requires Tracked(Snapshot()) && forall i :: i in images ==> i in page
      modifies this
      ensures Snapshot() == Scan(old(Snapshot()), images, innerHeight)
    {
      for k := 0 to |images|
        invariant Tracked(Snapshot()) && page.Keys == old(page.Keys)
        invariant Snapshot() == Scan(old(Snapshot()), images[..k], innerHeight)
      {
        Consider(images[k], innerHeight);
        assert images[..k + 1][..k] == images[..k];
      }
      assert images[..|images|] == images;
    }

    /** `checkImages` (lines 218-225), run by the interval and the debounced
        scroll listener, given the document's `<img>` elements in document
        order and the viewport height. */
    method CheckImages(images: seq<Img>, innerHeight: int)
      requires Tracked(Snapshot()) && forall i :: i in images ==> i in page
      modifies this
      ensures Snapshot() == Scan(old(Snapshot()), images, innerHeight)
    {
      ConsiderEach(images, innerHeight);
    }

    /** The scan in `initialize` (lines 269-275). Registering each image with
        the intersection observer, starting the mutation observer, the
        interval and the scroll listener (lines 271, 278-291) are host
        wiring; what is left is the same filtered scan as `checkImages`. */
    method Initialize(images: seq<Img>, innerHeight: int)
      requires Tracked(Snapshot()) && forall i :: i in images ==> i in page
      modifies this
      ensures Snapshot() == Scan(old(Snapshot()), images, innerHeight)
    {
      ConsiderEach(images, innerHeight);
    }

    /** The intersection observer's callback (lines 228-236). */
    method OnIntersection(entries: seq<Entry>, innerHeight: int)
      requires Tracked(Snapshot()) && forall e :: e in entries ==> e.target in page
      modifies this
      ensures Snapshot() == Intersected(old(Snapshot()), entries, innerHeight)
    {
      for k := 0 to |entries|
        invariant Tracked(Snapshot()) && page.Keys == old(page.Keys)
        invariant forall i :: i in Targets(entries[..k]) ==> i in old(page)
        invariant Snapshot() == Scan(old(Snapshot()), Targets(entries[..k]), innerHeight)
      {
        var entry := entries[k];
        TargetsNext(entries, k, old(page));
        ghost var done := Targets(entries[..k]);
        if entry.isIntersecting {
          Consider(entry.target, innerHeight);
          assert (done + [entry.target])[..|done|] == done;
        } else {
          assert done + [] == done;
        }
      }
      assert entries[..|entries|] == entries;
    }

    /** One added node of a mutation record (lines 244-261): the node itself
        if it is an `<img>`, then every `<img>` below it. Registering them
        with the intersection observer (lines 249, 259) is host wiring. */
    method OnAddedNode(n: Node, innerHeight: int)
      requires Tracked(Snapshot()) && forall i :: i in NodeImages(n) ==> i in page
      modifies this
      ensures Snapshot() == Scan(old(Snapshot()), NodeImages(n), innerHeight)
    {
      ghost var head := if n.image.Some? then [n.image.value] else [];
      if n.image.Some? {
        Consider(n.image.value, innerHeight);
        assert head[..0] == [];
      }
      assert Snapshot() == Scan(old(Snapshot()), head, innerHeight);
      ConsiderEach(n.nested, innerHeight);
      ScanAppend(old(Snapshot()), head, n.nested, innerHeight);
    }

    /** The added nodes of one mutation record, in order (line 244). */
    method OnRecord(nodes: seq<Node>, innerHeight: int)
      requires Tracked(Snapshot()) && forall i :: i in AddedImages(nodes) ==> i in page
      modifies this
      ensures Snapshot() == Scan(old(Snapshot()), AddedImages(nodes), innerHeight)
    {
      for j := 0 to |nodes|
        invariant Tracked(Snapshot()) && page.Keys == old(page.Keys)
        invariant forall i :: i in AddedImages(nodes[..j]) ==> i in old(page)
        invariant Snapshot() == Scan(old(Snapshot()), AddedImages(nodes[..j]), innerHeight)
      {
        assert nodes[..j + 1][..j] == nodes[..j];
        forall i | i in NodeImages(nodes[j]) ensures i in old(page) {
          assert nodes[j] in nodes && Offers(nodes[j], i);
          AddedImagesAre(nodes, i);
        }
        OnAddedNode(nodes[j], innerHeight);
        ScanAppend(old(Snapshot()), AddedImages(nodes[..j]), NodeImages(nodes[j]), innerHeight);
      }
      assert nodes[..|nodes|] == nodes;
    }

    /** The mutation observer's callback (lines 242-264). */
    method OnMutation(mutations: seq<Mutation>, innerHeight: int)
      requires Tracked(Snapshot()) && forall i :: i in Candidates(mutations) ==> i in page
      modifies this
      ensures Snapshot() == Scan(old(Snapshot()), Candidates(mutations), innerHeight)
    {
      for m := 0 to |mutations|
        invariant Tracked(Snapshot()) && page.Keys == old(page.Keys)
        invariant forall i :: i in Candidates(mutations[..m]) ==> i in old(page)
        invariant Snapshot() == Scan(old(Snapshot()), Candidates(mutations[..m]), innerHeight)
      {
        var nodes := mutations[m].addedNodes;
        forall i | i in AddedImages(nodes) ensures i in old(page) {
          AddedImagesAre(nodes, i);
          var node :| node in nodes && Offers(node, i);
          assert mutations[m] in mutations;
          CandidatesAre(mutations, i);
        }
        OnRecord(nodes, innerHeight);
        assert mutations[..m + 1][..m] == mutations[..m];
        ScanAppend(old(Snapshot()), Candidates(mutations[..m]), AddedImages(nodes), innerHeight);
      }
      assert mutations[..|mutations|] == mutations;
    }

    /** The `keydown` listener (lines 302-309), given the image under the
        pointer, if any. */
    method OnKeydown(k: KeyEvent, hovered: Option<Img>)
      requires Tracked(Snapshot()) && (hovered.Some? ==> hovered.value in page)
      modifies this
      ensures Snapshot() == Keydown(old(Snapshot()), k, hovered)
    {
      if k.ctrlKey && k.shiftKey && k.key == "T" {
        if hovered.Some? && page[hovered.value].translated == None {
          AddToQueue(hovered.value);
        }
      }
    }
  }
}
