# Image translator: a verified model of the admission scheduler

`image-translator.js` is a userscript that watches a web page for large
`<img>` elements and sends each one to a translation service. Each image goes
through four steps:

1. A filter (`shouldProcessImage`) decides whether the image is eligible.
2. Eligible images go into a deduplicating work queue (`addToQueue`).
3. A drain loop (`processQueue`) starts at most three translations at a time.
4. Each job (`translateImage`) tags the element with `data-translated` and,
   on success, swaps its `src` for the translated picture.

Candidates come from these sources:
- a periodic and scroll-triggered rescan (`checkImages`);
- the initial scan;
- an intersection observer;
- a mutation observer;
- a Ctrl+Shift+T shortcut on the image under the pointer.

This project models that core in Dafny and proves what it promises:
- the concurrency cap;
- no image queued twice, or both queued and in flight;
- tags only move forward;
- a tagged image is never picked up again;
- first-in, first-out admission;
- every queued image is eventually started and settled once enough jobs finish;
- each image ends as its own outcome says, whatever happens to the others.

The modules follow the structure of the script:

- `Wrappers`: the `Option` type.
- `Eligibility`: the configuration constants, the element record, and the
  filter `shouldProcessImage`.
- `Scheduler`: the two sets (`queue`, `processing`) and the page as a value.
  It holds the synchronous start of a job, the drain loop, `addToQueue`,
  and how a resumed job settles the element and runs its `finally`. The
  scheduler invariant `Inv` and the lemmas proving that each of these
  keeps it are here too.
- `Sources`: what each candidate source does to the scheduler's state,
  written as folds over the images it is handed. Each has a lemma that
  states exactly which images become pending.
- `Translator`: the script's module-level state as a class,
  `ImageTranslator`, with `queue`, `processing` and `page` fields. Its
  methods update them in place, with the same loops as the script. Each
  method ensures that its new state is the `Scheduler` or `Sources`
  function applied to the old one. The drain loop's invariant also
  proves that no intermediate state exceeds the cap.
- `Events`: a whole run of the script, meaning any interleaving of
  callbacks, job completions and host changes to the page. It holds the
  invariants over every run, the completion and failure-isolation
  results, and a worked example with five pictures.

The JavaScript `Set` that holds the queue is modelled as a duplicate-free
sequence, because a `Set` iterates in insertion order and `processQueue`
takes `queue.values().next().value`, the first-inserted element. The
processing set is a Dafny `set`. The `<img>` elements are identified by
`Img`, and the page maps each one to an `Element`: its natural size, the
top and bottom of its bounding box, its `src` and its `data-translated`
attribute.

Points about what the script does:

- The code never writes a `queued` tag. An image in the queue has no
  `data-translated` attribute until the drain loop starts it. So the tags
  are none, `processing`, `completed` and `skipped`, and the invariant
  `QueueUntagged` says that queued images are untagged.
- `addToQueue` does not look at the tag. It only checks membership in the
  two sets, and the filters of its callers keep tagged images out.
- Admission order is first-in, first-out (`Scheduler.DrainQueue`).
- The keyboard shortcut (lines 302-309) checks only the attribute. Size,
  viewport and `src` are not checked.
- A validated answer swaps `src` before the completed marker is installed.
  If the overlay container has been removed from its parent meanwhile (its
  `parentNode` is null), line 182 throws. A container that left the document
  with one of its ancestors still has a parent, and the tag stays `completed`. The handler then tags the element
  `skipped`, with the translated `src` already in place.

## Model

| member | source | states |
|---|---|---|
| Eligibility.ShouldProcessImage | image-translator.js:42-54 | an accepted element has no `data-translated` attribute, is at least 600 by 800 pixels and has a `src` of at least four characters |
| Eligibility.EligibleExactly | image-translator.js:42-54 | the filter accepts exactly an untagged element of at least 600 by 800 pixels, some row of which lies within 1000 px of the viewport, whose `src` starts with `http` or `data:` |
| Eligibility.NearViewportIsOverlap | image-translator.js:44-51 | the viewport test holds exactly when the bounding box and the viewport widened by 1000 px share a row of pixels |
| Eligibility.FetchableExamples | image-translator.js:52-53 | `http(s)` URLs and `data:` URIs are accepted; an empty `src`, a `blob:` URL and `about:blank` are not |
| Scheduler.Start | image-translator.js:126-127 | starting an image tags it `processing` and puts it in the processing set, leaving the queue and the set of elements alone |
| Scheduler.Step | image-translator.js:204-207 | one iteration removes the first-inserted image from the queue and starts it; the pending images stay the same |
| Scheduler.StepValid | image-translator.js:204-207 | an iteration taken while a slot is free keeps the queue duplicate-free and disjoint from the processing set, and fills exactly one slot |
| Scheduler.Drain | image-translator.js:202-209 | the drain loop keeps the set of pending images and stops with the cap reached or the queue empty |
| Scheduler.DrainValid | image-translator.js:202-209 | draining never takes the processing set beyond `maxConcurrent` and keeps the queue duplicate-free and disjoint from it |
| Scheduler.DrainQueue | image-translator.js:204-206 | the drain loop takes images from the front of the queue, in insertion order; what is left is a suffix of the queue |
| Scheduler.DrainStarts | image-translator.js:204-207 | after draining, the processing set is the old one plus exactly the images taken from the front of the queue |
| Scheduler.DrainPage | image-translator.js:204-207 | draining tags exactly the admitted images `processing` and changes nothing else on the page |
| Scheduler.DrainProgress | image-translator.js:202-209 | draining only starts untagged queued images, moves tags forward, keeps every other attribute, and leaves work waiting only when every slot is taken |
| Scheduler.DrainWork | image-translator.js:202-209 | draining neither creates nor drops work: queued plus in-flight images stay the same in number |
| Scheduler.DrainMoves | image-translator.js:202-209 | the drain loop restores the full invariant, keeps the pending images and their number, and changes an element only by starting a queued one |
| Scheduler.Add | image-translator.js:211-216 | after `addToQueue` the pending images are the old ones plus the image added |
| Scheduler.AddKeeps | image-translator.js:211-216 | `addToQueue` of an untagged image keeps the invariant, makes it pending, and otherwise only starts images |
| Scheduler.AddTwice | image-translator.js:211-216 | `addToQueue` is idempotent: a second call with the same image changes nothing |
| Scheduler.ReleasedKeeps | image-translator.js:187-197 | settling a job and leaving the processing set keeps the scheduler valid, retires exactly that image and moves its tag forward |
| Scheduler.FinishSettles | image-translator.js:123-199 | a job's end keeps the invariant, settles its element, retires exactly that image, lowers the work by one, and otherwise only starts queued images |
| Scheduler.Settle | image-translator.js:172-189 | a settled element is `completed` exactly on a validated answer with the overlay container still in its parent and `skipped` otherwise; its `src` becomes the object URL exactly on a validated answer; nothing else about it changes |
| Scheduler.Released | image-translator.js:187-197 | after the `finally` block's delete the image is out of the processing set with a final tag, the queue is as it was, and no other element changes |
| Scheduler.Finish | image-translator.js:132-199 | a job's end makes no image pending that was not, keeps every element, and leaves work waiting only with every slot taken |
| Scheduler.TranslatedRefused | image-translator.js:161-172 | an element showing its translation has a `blob:` `src`, which the filter refuses even with the `data-translated` attribute removed |
| Scheduler.FinishOutcome | image-translator.js:148-189 | the element ends `completed` exactly on a 200 answer that decodes while the overlay container still has a parent, otherwise `skipped`; `src` changes exactly on a validated answer, to its object URL; nothing else changes |
| Sources.Targets | image-translator.js:229-235 | the intersection callback passes on at most one image per entry, each the target of an intersecting entry |
| Sources.NodeImages | image-translator.js:245-261 | one added node passes on exactly the images it offers: itself if it is an `<img>`, and the `<img>` elements below it |
| Sources.AddedImages | image-translator.js:244-261 | every image the added nodes of a record pass on is offered by one of them |
| Sources.Candidates | image-translator.js:243-263 | every image a mutation callback passes on is offered by an added node of one of its records |
| Sources.Scan | image-translator.js:218-225 | a scan keeps every pending image pending and makes pending only images it was handed |
| Sources.Intersected | image-translator.js:228-236 | an intersection callback keeps every pending image pending and makes pending only targets of intersecting entries |
| Sources.Keydown | image-translator.js:302-309 | the shortcut makes the hovered image pending exactly when it has no `data-translated` attribute, and changes the pending images in no other way |
| Sources.Admit | image-translator.js:221-223 | filtering one image makes pending exactly the pending images plus that image if the filter accepts it |
| Sources.AdmitKeeps | image-translator.js:221-223 | the filter followed by `addToQueue` keeps the invariant and only starts images |
| Sources.ScanSpec | image-translator.js:218-225 | a rescan keeps the invariant, only starts images, and leaves pending exactly the images that were pending or that it was handed and the filter accepts |
| Sources.ScanAppend | image-translator.js:242-264 | scanning two lists of images in turn is scanning their concatenation |
| Sources.TargetsAre | image-translator.js:228-236 | the intersection callback hands the filter exactly the targets of intersecting entries |
| Sources.IntersectionSpec | image-translator.js:228-236 | an intersection callback keeps the invariant and makes pending exactly the eligible targets of intersecting entries, besides what was pending |
| Sources.AddedImagesAre | image-translator.js:244-261 | the added nodes of a record hand the filter exactly the nodes that are `<img>` and the `<img>` elements below any added node |
| Sources.CandidatesAre | image-translator.js:242-264 | a mutation callback hands the filter exactly the images an added node of any record offers |
| Sources.MutationSpec | image-translator.js:242-264 | a mutation callback keeps the invariant and makes pending exactly the eligible images offered by an added node, besides what was pending |
| Sources.KeydownSpec | image-translator.js:302-309 | Ctrl+Shift+T makes the hovered image pending exactly when it has no `data-translated` attribute, whatever its size or position, and keeps the invariant |
| Translator.ImageTranslator.constructor | image-translator.js:38-40 | both sets start empty |
| Translator.ImageTranslator.Start | image-translator.js:126-127 | the synchronous start of a job, as `Scheduler.Start` states it |
| Translator.ImageTranslator.ProcessQueue | image-translator.js:202-209 | the in-place drain loop ends in the state `Scheduler.Drain` gives, and no state it passes through breaks the invariant |
| Translator.ImageTranslator.AddToQueue | image-translator.js:211-216 | the in-place `addToQueue` ends in the state `Scheduler.Add` gives |
| Translator.ImageTranslator.Finish | image-translator.js:132-199 | setting `src`, then the tag, then the `finally` block in place ends in the state `Scheduler.Finish` gives |
| Translator.ImageTranslator.Consider | image-translator.js:221-223 | one filtered `addToQueue` ends in the state `Sources.Admit` gives |
| Translator.ImageTranslator.ConsiderEach | image-translator.js:220-224 | the loop over a list of images ends in the state `Sources.Scan` gives |
| Translator.ImageTranslator.CheckImages | image-translator.js:218-225 | `checkImages` ends in the state `Sources.Scan` gives for the document's images |
| Translator.ImageTranslator.Initialize | image-translator.js:267-275 | the initial scan ends in the state `Sources.Scan` gives for the document's images |
| Translator.ImageTranslator.OnIntersection | image-translator.js:228-236 | the intersection callback's loop ends in the state `Sources.Intersected` gives |
| Translator.ImageTranslator.OnAddedNode | image-translator.js:244-261 | one added node, then the images below it, end in the state their scan gives |
| Translator.ImageTranslator.OnRecord | image-translator.js:243-262 | the added nodes of one record, in order, end in the state their scan gives |
| Translator.ImageTranslator.OnMutation | image-translator.js:242-264 | the mutation callback ends in the state the scan of all its candidates gives |
| Translator.ImageTranslator.OnKeydown | image-translator.js:302-309 | the `keydown` listener ends in the state `Sources.Keydown` gives |
| Events.Apply | image-translator.js:123-309 | a completion makes no image pending, every other event keeps every pending image pending, and only a host change alters the set of elements, without touching the queue or the processing set |
| Events.Run | image-translator.js:123-309 | a run keeps every element on the page and, while no job completes, every pending image pending |
| Events.ApplyKeeps | image-translator.js:123-309 | every callback, completion and host change keeps the invariant, moves tags forward, and makes pending only images without `data-translated` |
| Events.RunKeeps | image-translator.js:202-216 | over any run there are never more than three images in flight, no image is queued twice or both queued and in flight, tags only move forward, and an image that is tagged and not pending is never picked up again |
| Events.TerminalStays | image-translator.js:42-54 | a `completed` or `skipped` image keeps its tag and is never queued or started again, whatever happens afterwards |
| Events.DoneStep | image-translator.js:196-199 | one completion retires one unit of work and touches no image that was neither queued nor in flight |
| Events.CompletionsDrain | image-translator.js:196-209 | each completion retires exactly one image and, while work remains, some job is in flight, so the queue never stalls; images that were not pending are untouched |
| Events.SettleStep | image-translator.js:123-199 | a completion settles its image by its own outcome and its own container state, and leaves every other pending image pending, to be settled as before |
| Events.SettleIgnoresTag | image-translator.js:172-189 | how a job ends does not depend on the tag the element carried |
| Events.AllSettle | image-translator.js:123-209 | after as many completions as there was work, in any order, the script is idle and every image that was pending ends as its own outcome and whether its own overlay container was removed from its parent alone dictate |
| Events.AllSucceed | image-translator.js:161-173 | when every translation succeeds and no overlay container was removed from its parent, every image that was pending ends `completed` showing its object URL, and the script is idle |
| Events.ScanAdmitsAll | image-translator.js:218-225 | a scan of untagged, eligible images makes every one of them pending and changes nothing about them but the tag |
| Events.GalleryEligible | image-translator.js:42-54 | five untagged 1000 by 1400 pictures at the top of an `https` page are eligible in a 900 px viewport |
| Events.GalleryScan | image-translator.js:218-225 | scanning the five pictures keeps the invariant and queues or starts all of them, changing nothing about them but their tags |
| Events.GalleryRun | image-translator.js:123-209 | whatever order the jobs finish in, the four translated pictures end `completed` with their object URLs and the one the service refused ends `skipped` with its original `src` |
| Events.GalleryExample | image-translator.js:123-225 | the scan and completions of the five pictures end as `GalleryRun` states |

## Left out

- The overlay, the completed marker, their styles and the DOM moves that install them (lines 58-121, 180-185, 191-195) are left out. The only thing modelled is their one effect on the core: an overlay container removed from its parent (its `parentNode` is null) makes line 182 throw, which is the `detached` flag of `Finish`.
- `createOverlay` can throw at line 90 when the image has no parent node. The handler then tags the image `skipped` synchronously, inside the drain loop that started it. The model treats the start of a job as non-throwing.
- Fetching the image, the form upload, the request to the service, `URL.createObjectURL`, and the one-second revocation timer are replaced by an `Outcome`: a failed fetch, a failed transport, or a response with a status, an object URL, and whether it decodes as an image.
- Decoding the answer (lines 163-169) is reduced to the boolean `decodes`.
- Host wiring is not modelled: registering images with the intersection observer, starting the mutation observer, `setInterval`, the 200 ms scroll debounce, `DOMContentLoaded`, and the `img:hover` query. Each callback instead receives what the host hands it.
- Bounding boxes are integers in CSS pixels, not floating-point numbers.
- Promise scheduling is modelled as `Done` events that may occur in any order at any step. The time a job takes is not modelled.
- Host changes to the page (scrolling, lazy `src` assignment, new elements) are a `Relayout` event in `Events`. `ImageTranslator` has no method for them and its `page` field is assigned directly.
- Events.HostChange: the host is assumed never to write or remove `data-translated` and never to remove an element. `TerminalStays` and the "never picked up again" clause of `RunKeeps` rest on this assumption. A page script that stripped the attribute from a `completed` image would let Ctrl+Shift+T (line 305), which does not look at `src`, queue it again. The filter would not, because the image's `src` is a `blob:` URL (lines 161, 172), which line 53 refuses (`Scheduler.TranslatedRefused`), unless the page also replaced that `src`. A stripped `skipped` image keeps its original `src`, so the filter could queue it again.
- `gmXhrRequest` choosing between the two userscript APIs (lines 26-36) is part of the transport and is left out.
- Eligibility.ShouldProcessImage: its own contract states only the necessary conditions. The exact condition is `Eligibility.EligibleExactly`, which needs a bounding box whose bottom is not above its top and a viewport of non-negative height, as every layout gives.
