/** The candidate sources (image-translator.js:218-264, 269-275, 302-309):
    the periodic and scroll-triggered rescan, the initial scan, the
    intersection and mutation callbacks and the keyboard shortcut. Each one
    only filters the images it is handed and passes the survivors to
    `addToQueue`; the functions here say what one callback does to the
    scheduler's state. */
module Sources {
  import opened Wrappers
  import opened Eligibility
  import opened Scheduler

  /** One `IntersectionObserverEntry`: the observed image and whether it now
      meets the viewport widened by the observer's 1000 px root margin. */
  datatype Entry = Entry(target: Img, isIntersecting: bool)

  /** One node of a mutation record's `addedNodes`. `image` is the node
      itself when its `nodeName` is `IMG`; `nested` lists, in document order,
      the `<img>` elements below it, which is what its
      `getElementsByTagName('img')` returns. A text or comment node has no
      such method and is `Node(None, [])`. */
  datatype Node = Node(image: Option<Img>, nested: seq<Img>)

  /** One `MutationRecord`; only its added nodes matter to the script. */
  datatype Mutation = Mutation(addedNodes: seq<Node>)

  /** The parts of a `keydown` event the shortcut looks at. */
  datatype KeyEvent = KeyEvent(ctrlKey: bool, shiftKey: bool, key: string)

  /** An image is offered by a node exactly when it is that node or below it. */
  predicate Offers(n: Node, i: Img)
  {
    n.image == Some(i) || i in n.nested
  }

  /** The filter every automatic source applies before `addToQueue`. */
  function Admit(s: State, img: Img, innerHeight: int): (r: State)
    requires Tracked(s) && img in s.page
    ensures r.page.Keys == s.page.Keys && Tracked(r)
    ensures forall i :: Pending(r, i) <==>
      Pending(s, i) || (i == img && ShouldProcessImage(s.page[img], innerHeight))
  {
    if ShouldProcessImage(s.page[img], innerHeight) then Add(s, img) else s
  }

  /** `checkImages` (lines 218-225), and the loop of the initial scan
      (lines 269-275): every image of the document, in document order,
      through the filter. */
  function Scan(s: State, images: seq<Img>, innerHeight: int): (r: State)
    requires Tracked(s) && forall i :: i in images ==> i in s.page
    ensures r.page.Keys == s.page.Keys && Tracked(r)
    ensures forall i :: Pending(s, i) ==> Pending(r, i)
    ensures forall i :: Pending(r, i) && !Pending(s, i) ==> i in images
    decreases |images|
  {
    if images == [] then s
    else Admit(Scan(s, images[..|images| - 1], innerHeight), images[|images| - 1], innerHeight)
  }

  /** The images an intersection callback (lines 228-236) passes to the
      filter: the targets of the entries that intersect, in order. */
  function Targets(entries: seq<Entry>): (r: seq<Img>)
    ensures |r| <= |entries|
    ensures forall i :: i in r ==> exists e :: e in entries && e.isIntersecting && e.target == i
    decreases |entries|
  {
    if entries == [] then []
    else
      var last := entries[|entries| - 1];
      Targets(entries[..|entries| - 1]) + (if last.isIntersecting then [last.target] else [])
  }

  /** The images one added node hands to the filter (lines 245-261): the
      node itself if it is an `<img>`, then the `<img>` elements below it. */
  function NodeImages(n: Node): (r: seq<Img>)
    ensures forall i :: i in r <==> Offers(n, i)
  {
    (if n.image.Some? then [n.image.value] else []) + n.nested
  }

  /** The images the added nodes of one mutation record hand to the filter. */
  function AddedImages(nodes: seq<Node>): (r: seq<Img>)
    ensures forall i :: i in r ==> exists node :: node in nodes && Offers(node, i)
    decreases |nodes|
  {
    if nodes == [] then []
    else AddedImages(nodes[..|nodes| - 1]) + NodeImages(nodes[|nodes| - 1])
  }

  /** The images a mutation callback (lines 242-264) hands to the filter. */
  function Candidates(mutations: seq<Mutation>): (r: seq<Img>)
    ensures forall i :: i in r ==> exists m, node :: m in mutations && node in m.addedNodes && Offers(node, i)
    decreases |mutations|
  {
    if mutations == [] then []
    else Candidates(mutations[..|mutations| - 1]) + AddedImages(mutations[|mutations| - 1].addedNodes)
  }

  /** What an intersection callback (lines 228-236) does: the intersecting
      targets, in order, through the filter. */
  function Intersected(s: State, entries: seq<Entry>, innerHeight: int): (r: State)
    requires Tracked(s) && forall e :: e in entries ==> e.target in s.page
    ensures r.page.Keys == s.page.Keys && Tracked(r)
    ensures forall i :: Pending(s, i) ==> Pending(r, i)
    ensures forall i :: Pending(r, i) && !Pending(s, i) ==>
      exists e :: e in entries && e.isIntersecting && e.target == i
  {
    TargetsOnPage(entries, s.page);
    Scan(s, Targets(entries), innerHeight)
  }

  /** Ctrl+Shift+T (line 303). */
  predicate IsShortcut(k: KeyEvent)
  {
    k.ctrlKey && k.shiftKey && k.key == "T"
  }

  /** The `keydown` handler (lines 302-309): on the shortcut, the image under
      the pointer, if any, goes to `addToQueue` when it has no
      `data-translated` attribute; its size, position and `src` are not
      looked at. */
  function Keydown(s: State, k: KeyEvent, hovered: Option<Img>): (r: State)
    requires Tracked(s) && (hovered.Some? ==> hovered.value in s.page)
    ensures r.page.Keys == s.page.Keys && Tracked(r)
    ensures forall i :: Pending(r, i) <==>
      Pending(s, i) || (IsShortcut(k) && hovered == Some(i) && s.page[i].translated == None)
  {
    if IsShortcut(k) && hovered.Some? && s.page[hovered.value].translated == None then
      Add(s, hovered.value)
    else
      s
  }

  /** The filter and `addToQueue` keep the invariant and only start images. */
  lemma AdmitKeeps(s: State, img: Img, innerHeight: int)
    requires Inv(s) && img in s.page
    ensures Inv(Admit(s, img, innerHeight)) && OnlyStarted(s, Admit(s, img, innerHeight))
  {
    if ShouldProcessImage(s.page[img], innerHeight) {
      AddKeeps(s, img);
    }
  }

  /** Scanning two lists one after the other is scanning them joined. */
  lemma {:induction false} ScanAppend(s: State, a: seq<Img>, b: seq<Img>, innerHeight: int)
    requires Tracked(s) && (forall i :: i in a ==> i in s.page) && (forall i :: i in b ==> i in s.page)
    ensures Scan(s, a + b, innerHeight) == Scan(Scan(s, a, innerHeight), b, innerHeight)
    decreases |b|
  {
    if b == [] {
      assert a + b == a;
    } else {
      var n := |b| - 1;
      ScanAppend(s, a, b[..n], innerHeight);
      assert (a + b)[..|a + b| - 1] == a + b[..n];
    }
  }

  // ---------------------------------------------------------------------
  // What the sources hand to the filter

  lemma {:induction false} TargetsAre(entries: seq<Entry>, i: Img)
    ensures i in Targets(entries) <==> exists e :: e in entries && e.isIntersecting && e.target == i
    decreases |entries|
  {
    if entries != [] {
      var n := |entries| - 1;
      var last := entries[n];
      TargetsAre(entries[..n], i);
      assert entries == entries[..n] + [last];
      if i in Targets(entries[..n]) {
        var e :| e in entries[..n] && e.isIntersecting && e.target == i;
        assert e in entries;
      }
      if exists e :: e in entries && e.isIntersecting && e.target == i {
        var e :| e in entries && e.isIntersecting && e.target == i;
        if e != last {
          assert e in entries[..n];
        }
      }
    }
  }

  lemma TargetsOnPage(entries: seq<Entry>, page: map<Img, Element>)
    requires forall e :: e in entries ==> e.target in page
    ensures forall i :: i in Targets(entries) ==> i in page
  {
    forall i | i in Targets(entries) ensures i in page {
      TargetsAre(entries, i);
    }
  }

  /** Taking one more entry of an intersection callback's list. */
  lemma TargetsNext(entries: seq<Entry>, k: nat, page: map<Img, Element>)
    requires k < |entries| && forall e :: e in entries ==> e.target in page
    ensures Targets(entries[..k + 1]) ==
      Targets(entries[..k]) + (if entries[k].isIntersecting then [entries[k].target] else [])
    ensures forall i :: i in Targets(entries[..k + 1]) ==> i in page
  {
    assert entries[..k + 1][..k] == entries[..k];
    forall e | e in entries[..k + 1] ensures e.target in page {
      assert e in entries;
    }
    TargetsOnPage(entries[..k + 1], page);
  }

  /** The added nodes of one record offer exactly the images that are one
      of them or lie below one of them. */
  lemma {:induction false} AddedImagesAre(nodes: seq<Node>, i: Img)
    ensures i in AddedImages(nodes) <==> exists node :: node in nodes && Offers(node, i)
    decreases |nodes|
  {
    if nodes != [] {
      var n := |nodes| - 1;
      var last := nodes[n];
      AddedImagesAre(nodes[..n], i);
      assert nodes == nodes[..n] + [last];
      assert i in NodeImages(last) <==> Offers(last, i);
      if i in AddedImages(nodes[..n]) {
        var node :| node in nodes[..n] && Offers(node, i);
        assert node in nodes;
      }
      if exists node :: node in nodes && Offers(node, i) {
        var node :| node in nodes && Offers(node, i);
        if node != last {
          assert node in nodes[..n];
        }
      }
    }
  }

  /** A mutation callback offers exactly the images that are an added node
      or lie below one, whichever record the node came in. */
  lemma {:induction false} CandidatesAre(mutations: seq<Mutation>, i: Img)
    ensures i in Candidates(mutations) <==>
      exists m, node :: m in mutations && node in m.addedNodes && Offers(node, i)
    decreases |mutations|
  {
    if mutations != [] {
      var n := |mutations| - 1;
      var last := mutations[n];
      CandidatesAre(mutations[..n], i);
      AddedImagesAre(last.addedNodes, i);
      assert mutations == mutations[..n] + [last];
      if i in Candidates(mutations[..n]) {
        var m, node :| m in mutations[..n] && node in m.addedNodes && Offers(node, i);
        assert m in mutations;
      }
      if exists m, node :: m in mutations && node in m.addedNodes && Offers(node, i) {
        var m, node :| m in mutations && node in m.addedNodes && Offers(node, i);
        if m != last {
          assert m in mutations[..n];
        }
      }
    }
  }

  // ---------------------------------------------------------------------
  // What one callback does to the scheduler

  /** A scan keeps the invariant and only starts images, and afterwards an
      image is queued or in flight exactly when it was before or it was
      scanned and eligible when the scan began. In particular no image that
      carried a `data-translated` attribute is ever queued by a scan. */
  lemma {:induction false} ScanSpec(s: State, images: seq<Img>, innerHeight: int)
    requires Inv(s) && forall i :: i in images ==> i in s.page
    ensures Inv(Scan(s, images, innerHeight)) && OnlyStarted(s, Scan(s, images, innerHeight))
    ensures forall i :: Pending(Scan(s, images, innerHeight), i) <==>
      Pending(s, i) || (i in images && ShouldProcessImage(s.page[i], innerHeight))
    decreases |images|
  {
    if images != [] {
      var n := |images| - 1;
      var x := images[n];
      ScanSpec(s, images[..n], innerHeight);
      var t := Scan(s, images[..n], innerHeight);
      var r := Admit(t, x, innerHeight);
      assert r == Scan(s, images, innerHeight);
      AdmitKeeps(t, x, innerHeight);
      OnlyStartedTrans(s, t, r);
      assert images == images[..n] + [x];
      forall i ensures Pending(r, i) <==>
        Pending(s, i) || (i in images && ShouldProcessImage(s.page[i], innerHeight))
      {
        if i == x && ShouldProcessImage(s.page[x], innerHeight) {
          assert Pending(t, x) || ShouldProcessImage(t.page[x], innerHeight);
        }
      }
    }
  }

  /** An intersection callback is a scan of the intersecting targets. */
  lemma IntersectionSpec(s: State, entries: seq<Entry>, innerHeight: int)
    requires Inv(s) && forall e :: e in entries ==> e.target in s.page
    ensures Inv(Intersected(s, entries, innerHeight)) && OnlyStarted(s, Intersected(s, entries, innerHeight))
    ensures forall i :: Pending(Intersected(s, entries, innerHeight), i) <==>
      || Pending(s, i)
      || (i in s.page && ShouldProcessImage(s.page[i], innerHeight) &&
          exists e :: e in entries && e.isIntersecting && e.target == i)
  {
    forall i ensures i in Targets(entries) <==> exists e :: e in entries && e.isIntersecting && e.target == i
    {
      TargetsAre(entries, i);
    }
    ScanSpec(s, Targets(entries), innerHeight);
  }

  /** A mutation callback is a scan of the added images and of the images
      below the added nodes. */
  lemma MutationSpec(s: State, mutations: seq<Mutation>, innerHeight: int)
    requires Inv(s) && forall i :: i in Candidates(mutations) ==> i in s.page
    ensures Inv(Scan(s, Candidates(mutations), innerHeight))
    ensures OnlyStarted(s, Scan(s, Candidates(mutations), innerHeight))
    ensures forall i :: Pending(Scan(s, Candidates(mutations), innerHeight), i) <==>
      || Pending(s, i)
      || (i in s.page && ShouldProcessImage(s.page[i], innerHeight) &&
          exists m, node :: m in mutations && node in m.addedNodes && Offers(node, i))
  {
    forall i ensures i in Candidates(mutations) <==>
      exists m, node :: m in mutations && node in m.addedNodes && Offers(node, i)
    {
      CandidatesAre(mutations, i);
    }
    ScanSpec(s, Candidates(mutations), innerHeight);
  }

  /** The shortcut keeps the invariant and queues or starts the hovered
      image exactly when it has no `data-translated` attribute, whatever its
      size and position; an image already tagged is left alone. */
  lemma KeydownSpec(s: State, k: KeyEvent, hovered: Option<Img>)
    requires Inv(s) && (hovered.Some? ==> hovered.value in s.page)
    ensures Inv(Keydown(s, k, hovered)) && OnlyStarted(s, Keydown(s, k, hovered))
    ensures forall i :: Pending(Keydown(s, k, hovered), i) <==>
      || Pending(s, i)
      || (IsShortcut(k) && hovered == Some(i) && s.page[i].translated == None)
  {
    if IsShortcut(k) && hovered.Some? && s.page[hovered.value].translated == None {
      AddKeeps(s, hovered.value);
    }
  }
}
