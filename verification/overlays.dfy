/** The overlay manager: the notification banner (at most one at a time, removed by
    its close button or by its timers), the gallery lightbox (closed by a click or by
    Escape), and the guarded style injections into the document head.

    The document body is modelled as the sequence of overlays appended to it, in
    document order; the rest of the page never changes here. Every created element
    gets a fresh number, which stands for the object identity that the timers and
    listeners of the source close over. Timer firings are explicit method calls. */
module Overlays {

  /** The two notification types the page uses. */
  datatype Kind = Success | Error

  datatype Overlay =
    | Notification(id: nat, message: string, kind: Kind, leaving: bool)
    | Lightbox(id: nat, url: string, caption: string)

  const LightboxStylesId: string := "lightbox-styles"
  const NotificationStylesId: string := "notification-styles"
  const NotificationAnimationsId: string := "notification-animations"

  predicate Distinct<T(==)>(s: seq<T>)
  {
    forall i, j :: 0 <= i < j < |s| ==> s[i] != s[j]
  }

  lemma DistinctSnoc<T>(s: seq<T>, x: T)
    requires Distinct(s) && x !in s
    ensures Distinct(s + [x])
  {
  }

  lemma DistinctCons<T>(x: T, s: seq<T>)
    requires Distinct(s) && x !in s
    ensures Distinct([x] + s)
  {
  }

  // ---------------------------------------------------------------------------
  // Notifications

  /** The notifications in the body, in document order. */
  function Notifications(b: seq<Overlay>): (r: seq<Overlay>)
    ensures |r| <= |b|
  {
    if b == [] then []
    else (if b[0].Notification? then [b[0]] else []) + Notifications(b[1..])
  }

  lemma {:induction false} NotificationsAppend(a: seq<Overlay>, b: seq<Overlay>)
    ensures Notifications(a + b) == Notifications(a) + Notifications(b)
  {
    if a == [] {
      assert a + b == b;
    } else {
      assert (a + b)[0] == a[0];
      assert (a + b)[1..] == a[1..] + b;
      NotificationsAppend(a[1..], b);
    }
  }

  /** `querySelector('.notification')` then `remove()`: the first notification in
      document order leaves, every other element stays, in order. */
  function WithoutFirstNotification(b: seq<Overlay>): (r: seq<Overlay>)
    ensures Notifications(r) == if Notifications(b) == [] then [] else Notifications(b)[1..]
    ensures forall o :: o in r ==> o in b
    ensures forall o :: o in b && !o.Notification? ==> o in r
  {
    if b == [] then []
    else if b[0].Notification? then b[1..]
    else
      var rest := WithoutFirstNotification(b[1..]);
      NotificationsAppend([b[0]], rest);
      [b[0]] + rest
  }

  /** The notifications listed are exactly the body's notification elements. */
  lemma {:induction false} NotificationsMembers(b: seq<Overlay>)
    ensures forall o :: o in Notifications(b) <==> o in b && o.Notification?
  {
    if b != [] {
      NotificationsMembers(b[1..]);
      assert b == [b[0]] + b[1..];
    }
  }

  /** showNotification's body update: evict the first notification, append the new one.
      With at most one notification before, exactly one is left after, the new one. */
  lemma ShowLeavesOnlyNew(b: seq<Overlay>, n: Overlay)
    requires n.Notification?
    requires |Notifications(b)| <= 1
    ensures Notifications(WithoutFirstNotification(b) + [n]) == [n]
  {
    NotificationsAppend(WithoutFirstNotification(b), [n]);
    assert Notifications([n]) == [n] + Notifications([]);
  }

  /** Showing a notification keeps every lightbox and adds only the new element. */
  lemma ShowKeepsLightboxes(b: seq<Overlay>, n: Overlay, next: nat)
    requires n.Notification? && n.id == next
    requires forall o :: o in b ==> o.id < next
    ensures forall o :: o in WithoutFirstNotification(b) + [n] ==> o.id < next + 1
    ensures forall x :: HasLightbox(b, x) ==> HasLightbox(WithoutFirstNotification(b) + [n], x)
  {
  }

  /** In general the eviction removes only one: k >= 1 notifications stay k. */
  lemma ShowReplacesFirst(b: seq<Overlay>, n: Overlay)
    requires n.Notification?
    ensures |Notifications(WithoutFirstNotification(b) + [n])| ==
            if |Notifications(b)| == 0 then 1 else |Notifications(b)|
  {
    NotificationsAppend(WithoutFirstNotification(b), [n]);
    assert Notifications([n]) == [n] + Notifications([]);
  }

  /** `element.remove()`, which does nothing on an element already detached. */
  function Detach(b: seq<Overlay>, id: nat): (r: seq<Overlay>)
    ensures forall o :: o in r <==> o in b && o.id != id
    ensures |Notifications(r)| <= |Notifications(b)|
    ensures (forall o :: o in b ==> o.id != id) ==> r == b
  {
    if b == [] then []
    else
      var rest := Detach(b[1..], id);
      assert b == [b[0]] + b[1..];
      NotificationsAppend([b[0]], b[1..]);
      if b[0].id == id then rest
      else
        NotificationsAppend([b[0]], rest);
        [b[0]] + rest
  }

  /** Removing twice is removing once: a late timer finds nothing left to do. */
  lemma DetachIdempotent(b: seq<Overlay>, id: nat)
    ensures Detach(Detach(b, id), id) == Detach(b, id)
  {
  }

  /** The exit transition (`style.animation = 'slideOutRight …'`) of notification id,
      if it is still in the body. */
  function BeginLeaving(b: seq<Overlay>, id: nat): (r: seq<Overlay>)
    ensures |r| == |b|
  {
    if b == [] then []
    else
      var first := if b[0].Notification? && b[0].id == id then b[0].(leaving := true) else b[0];
      [first] + BeginLeaving(b[1..], id)
  }

  /** The exit transition only marks notification id as leaving: every other element
      stays, and a detached notification is left alone. */
  lemma {:induction false} BeginLeavingMarksOnly(b: seq<Overlay>, id: nat)
    ensures forall o :: o in b && !o.Notification? ==> o in BeginLeaving(b, id)
    ensures forall o :: o in BeginLeaving(b, id) ==> o in b || (o.Notification? && o.id == id && o.leaving)
    ensures (forall o :: o in b ==> o.id != id) ==> BeginLeaving(b, id) == b
  {
    if b != [] {
      BeginLeavingMarksOnly(b[1..], id);
      assert b == [b[0]] + b[1..];
    }
  }

  /** The exit transition keeps the number of notifications. */
  lemma {:induction false} BeginLeavingKeepsCount(b: seq<Overlay>, id: nat)
    ensures |Notifications(BeginLeaving(b, id))| == |Notifications(b)|
  {
    if b != [] {
      var first := if b[0].Notification? && b[0].id == id then b[0].(leaving := true) else b[0];
      var rest := BeginLeaving(b[1..], id);
      BeginLeavingKeepsCount(b[1..], id);
      assert b == [b[0]] + b[1..];
      NotificationsAppend([b[0]], b[1..]);
      NotificationsAppend([first], rest);
      assert |Notifications([first])| == |Notifications([b[0]])|;
    }
  }

  // ---------------------------------------------------------------------------
  // Style registry

  /** `if (!document.querySelector('#' + id)) document.head.appendChild(<style id>)`. */
  function EnsureStyle(head: seq<string>, id: string): (r: seq<string>)
    ensures id in r
    ensures forall x :: x in r <==> x in head || x == id
    ensures Distinct(head) ==> Distinct(r)
    ensures id in head ==> r == head
  {
    if id in head then head else head + [id]
  }

  /** A run of guarded injections, in call order. */
  function EnsureStyles(head: seq<string>, ids: seq<string>): (r: seq<string>)
  {
    if ids == [] then head else EnsureStyle(EnsureStyles(head, ids[..|ids| - 1]), ids[|ids| - 1])
  }

  /** However many injections run, each style id appears at most once, every injected
      id is present, and nothing else is added. */
  lemma {:induction false} EnsureStylesUnique(head: seq<string>, ids: seq<string>)
    requires Distinct(head)
    ensures Distinct(EnsureStyles(head, ids))
    ensures forall x :: x in EnsureStyles(head, ids) <==> x in head || x in ids
  {
    if ids != [] {
      var prefix := ids[..|ids| - 1];
      EnsureStylesUnique(head, prefix);
      assert ids == prefix + [ids[|ids| - 1]];
    }
  }

  // ---------------------------------------------------------------------------
  // Lightbox and its Escape listeners

  predicate HasLightbox(b: seq<Overlay>, id: nat)
  {
    exists o :: o in b && o.Lightbox? && o.id == id
  }

  /** removeEventListener: drop listener x, keep the others in order. */
  function Unregister(ls: seq<nat>, x: nat): (r: seq<nat>)
    ensures forall y :: y in r <==> y in ls && y != x
  {
    if ls == [] then []
    else
      var rest := Unregister(ls[1..], x);
      if ls[0] == x then rest else [ls[0]] + rest
  }

  lemma {:induction false} UnregisterKeepsDistinct(ls: seq<nat>, x: nat)
    requires Distinct(ls)
    ensures Distinct(Unregister(ls, x))
  {
    if ls != [] {
      assert Distinct(ls[1..]) && ls[0] !in ls[1..];
      UnregisterKeepsDistinct(ls[1..], x);
      if ls[0] != x {
        DistinctCons(ls[0], Unregister(ls[1..], x));
      }
    }
  }

  datatype EscapeOutcome = EscapeOutcome(body: seq<Overlay>, scrollLocked: bool, kept: seq<nat>, errors: nat)

  /** One Escape keydown as written: the registered closeOnEsc listeners run in
      registration order; listener x calls `document.body.removeChild` on lightbox x.
      If that lightbox is attached it leaves, scrolling is restored and the listener
      unregisters itself. If it was already removed, removeChild throws NotFoundError,
      the rest of that listener is skipped (it stays registered), and dispatch goes on
      with the next listener. */
  function EscapeDispatch(body: seq<Overlay>, locked: bool, ls: seq<nat>): (r: EscapeOutcome)
    ensures r.errors == |r.kept|
    ensures forall x :: x in r.kept ==> x in ls
    ensures forall o :: o in r.body ==> o in body
    ensures |Notifications(r.body)| <= |Notifications(body)|
  {
    if ls == [] then EscapeOutcome(body, locked, [], 0)
    else EscapeListener(EscapeDispatch(body, locked, ls[..|ls| - 1]), ls[|ls| - 1])
  }

  /** What the closeOnEsc listener of lightbox id does: an attached lightbox leaves,
      alone, and scrolling is restored; a detached one makes it throw and stay. */
  function EscapeListener(before: EscapeOutcome, id: nat): (after: EscapeOutcome)
    ensures !HasLightbox(after.body, id)
    ensures forall x :: x != id ==> (HasLightbox(after.body, x) <==> HasLightbox(before.body, x))
    ensures HasLightbox(before.body, id) ==>
              !after.scrollLocked && after.kept == before.kept && after.errors == before.errors
    ensures !HasLightbox(before.body, id) ==>
              after.body == before.body && after.scrollLocked == before.scrollLocked &&
              after.kept == before.kept + [id] && after.errors == before.errors + 1
  {
    if HasLightbox(before.body, id) then
      DetachHasLightbox(before.body, id);
      before.(body := Detach(before.body, id), scrollLocked := false)
    else before.(kept := before.kept + [id], errors := before.errors + 1)
  }

  lemma EscapeDispatchSnoc(body: seq<Overlay>, locked: bool, ls: seq<nat>, i: nat)
    requires i < |ls|
    ensures EscapeDispatch(body, locked, ls[..i + 1]) ==
            EscapeListener(EscapeDispatch(body, locked, ls[..i]), ls[i])
  {
    assert ls[..i + 1][..i] == ls[..i];
  }

  /** Escape only removes overlays and keeps a subset of the listeners, so every id
      bound and the single-notification bound survive it. */
  lemma EscapeDispatchBounded(body: seq<Overlay>, locked: bool, ls: seq<nat>, n: nat)
    requires forall o :: o in body ==> o.id < n
    requires forall x :: x in ls ==> x < n
    requires |Notifications(body)| <= 1
    ensures forall o :: o in EscapeDispatch(body, locked, ls).body ==> o.id < n
    ensures forall x :: x in EscapeDispatch(body, locked, ls).kept ==> x < n
    ensures |Notifications(EscapeDispatch(body, locked, ls).body)| <= 1
  {
  }

  /** As written: a listener whose lightbox is gone throws and stays registered. */
  lemma StaleListenerThrows(body: seq<Overlay>, locked: bool, id: nat)
    requires !HasLightbox(body, id)
    ensures EscapeDispatch(body, locked, [id]) == EscapeOutcome(body, locked, [id], 1)
  {
    assert [id][..0] == [];
  }

  /** Any mix of stale and live listeners: exactly the stale ones (whose lightbox was
      already removed before the keydown) throw and stay registered, without
      repetition, and exactly the live ones' lightboxes leave. Scrolling is restored
      iff some listener was live. */
  lemma {:induction false} MixedDispatch(body: seq<Overlay>, locked: bool, ls: seq<nat>)
    requires Distinct(ls)
    ensures Distinct(EscapeDispatch(body, locked, ls).kept)
    ensures forall x :: x in EscapeDispatch(body, locked, ls).kept <==> x in ls && !HasLightbox(body, x)
    ensures forall x :: HasLightbox(EscapeDispatch(body, locked, ls).body, x) <==>
                         HasLightbox(body, x) && x !in ls
    ensures EscapeDispatch(body, locked, ls).scrollLocked <==>
              locked && forall x :: x in ls ==> !HasLightbox(body, x)
  {
    if ls != [] {
      var prefix := ls[..|ls| - 1];
      var id := ls[|ls| - 1];
      assert ls == prefix + [id];
      assert Distinct(prefix);
      assert id !in prefix;
      MixedDispatch(body, locked, prefix);
      var r := EscapeDispatch(body, locked, prefix);
      DetachHasLightbox(r.body, id);
      if !HasLightbox(r.body, id) {
        DistinctSnoc(r.kept, id);
      }
    }
  }

  /** When every registered listener's lightbox is still attached, Escape removes all
      of them, throws nothing, leaves no listener behind and restores scrolling. */
  lemma {:induction false} LiveListenersNeverThrow(body: seq<Overlay>, locked: bool, ls: seq<nat>)
    requires Distinct(ls)
    requires forall x :: x in ls ==> HasLightbox(body, x)
    ensures EscapeDispatch(body, locked, ls).errors == 0
    ensures EscapeDispatch(body, locked, ls).kept == []
    ensures forall x :: x in ls ==> !HasLightbox(EscapeDispatch(body, locked, ls).body, x)
    ensures forall x :: x !in ls ==>
              (HasLightbox(EscapeDispatch(body, locked, ls).body, x) <==> HasLightbox(body, x))
    ensures ls != [] ==> !EscapeDispatch(body, locked, ls).scrollLocked
  {
    if ls != [] {
      var prefix := ls[..|ls| - 1];
      var id := ls[|ls| - 1];
      assert ls == prefix + [id];
      assert Distinct(prefix);
      assert id !in prefix;
      LiveListenersNeverThrow(body, locked, prefix);
      var r := EscapeDispatch(body, locked, prefix);
      assert HasLightbox(r.body, id);
      DetachHasLightbox(r.body, id);
    }
  }

  /** Appending lightbox `next` keeps every other lightbox and adds no notification. */
  lemma OpenKeepsLightboxes(b: seq<Overlay>, l: Overlay, next: nat)
    requires l.Lightbox? && l.id == next
    requires forall o :: o in b ==> o.id < next
    ensures forall o :: o in b + [l] ==> o.id < next + 1
    ensures |Notifications(b + [l])| == |Notifications(b)|
    ensures forall x :: HasLightbox(b, x) ==> HasLightbox(b + [l], x)
    ensures HasLightbox(b + [l], next)
  {
    NotificationsAppend(b, [l]);
    assert Notifications([l]) == [] + Notifications([]);
    assert l in b + [l];
  }

  /** After removing element id, exactly the other lightboxes are still attached. */
  lemma DetachHasLightbox(b: seq<Overlay>, id: nat)
    ensures forall x :: HasLightbox(Detach(b, id), x) <==> x != id && HasLightbox(b, x)
  {
    forall x
      ensures HasLightbox(Detach(b, id), x) <==> x != id && HasLightbox(b, x)
    {
      if HasLightbox(Detach(b, id), x) {
        var o :| o in Detach(b, id) && o.Lightbox? && o.id == x;
        assert o in b;
      }
      if x != id && HasLightbox(b, x) {
        var o :| o in b && o.Lightbox? && o.id == x;
        assert o in Detach(b, id);
      }
    }
  }

  /** Listing the notifications commutes with removing an element. */
  lemma {:induction false} NotificationsDetach(b: seq<Overlay>, id: nat)
    ensures Notifications(Detach(b, id)) == Detach(Notifications(b), id)
  {
    if b != [] {
      var rest := b[1..];
      NotificationsDetach(rest, id);
      var nb := Notifications(b);
      if b[0].Notification? {
        assert nb == [b[0]] + Notifications(rest);
        assert nb != [] && nb[0] == b[0] && nb[1..] == Notifications(rest);
      } else {
        assert nb == [] + Notifications(rest) == Notifications(rest);
      }
      if b[0].id == id {
        assert Detach(b, id) == Detach(rest, id);
        if b[0].Notification? {
          calc {
            Notifications(Detach(b, id));
            Detach(Notifications(rest), id);
            Detach(nb[1..], id);
            Detach(nb, id);
          }
        }
      } else {
        var d := [b[0]] + Detach(rest, id);
        assert Detach(b, id) == d;
        assert d[0] == b[0] && d[1..] == Detach(rest, id);
        if b[0].Notification? {
          calc {
            Notifications(d);
            [b[0]] + Notifications(Detach(rest, id));
            [b[0]] + Detach(nb[1..], id);
            Detach(nb, id);
          }
        } else {
          calc {
            Notifications(d);
            [] + Notifications(Detach(rest, id));
            Detach(nb, id);
          }
        }
      }
    }
  }

  /** A notification's removal timer keeps every lightbox: the element it removes is
      its own notification. */
  lemma RemovingNotificationKeepsLightboxes(b: seq<Overlay>, id: nat)
    requires forall o :: o in b && o.id == id ==> o.Notification?
    ensures forall x :: HasLightbox(b, x) ==> HasLightbox(Detach(b, id), x)
  {
    DetachHasLightbox(b, id);
    forall x | HasLightbox(b, x)
      ensures x != id
    {
      var o :| o in b && o.Lightbox? && o.id == x;
    }
  }

  /** Removing the notification that is shown leaves no notification. */
  lemma RemovingShownNotification(b: seq<Overlay>, n: Overlay)
    requires n in b && n.Notification?
    requires |Notifications(b)| <= 1
    ensures Notifications(Detach(b, n.id)) == []
  {
    NotificationsMembers(b);
    assert n in Notifications(b);
    assert Notifications(b) == [n];
    NotificationsDetach(b, n.id);
  }

  /** Removing element id keeps the id bound and the single-notification bound. */
  lemma DetachBounded(b: seq<Overlay>, id: nat, next: nat)
    requires forall o :: o in b ==> o.id < next
    requires |Notifications(b)| <= 1
    ensures forall o :: o in Detach(b, id) ==> o.id < next
    ensures |Notifications(Detach(b, id))| <= 1
  {
  }

  // ---------------------------------------------------------------------------
  // The document

  class Document {
    /** overlays appended to document.body, in order */
    var body: seq<Overlay>
    /** ids of the style elements injected into document.head, in order */
    var head: seq<string>
    /** document.body.style.overflow == 'hidden' */
    var scrollLocked: bool
    /** the lightboxes whose closeOnEsc keydown listener is registered, in registration order */
    var escapeListeners: seq<nat>
    var nextId: nat

    /** Every element and listener was created before; each listener is registered
        once; at most one notification is shown; each style id is injected at most once. */
    ghost predicate Valid()
      reads this
    {
      (forall o :: o in body ==> o.id < nextId) &&
      (forall x :: x in escapeListeners ==> x < nextId) &&
      Distinct(escapeListeners) &&
      |Notifications(body)| <= 1 &&
      Distinct(head)
    }

    /** No stale Escape listener: each registered one still has its lightbox attached. */
    ghost predicate ListenersLive()
      reads this
    {
      Distinct(escapeListeners) && forall x :: x in escapeListeners ==> HasLightbox(body, x)
    }

    constructor ()
      ensures Valid() && ListenersLive()
      ensures body == [] && head == [] && !scrollLocked && escapeListeners == []
    {
      body, head, scrollLocked, escapeListeners, nextId := [], [], false, [], 0;
    }

    method ShowNotification(message: string, kind: Kind) returns (id: nat)
      requires Valid()
      modifies this
      ensures Valid()
      ensures id == old(nextId) && nextId == id + 1
      ensures body == WithoutFirstNotification(old(body)) + [Notification(id, message, kind, false)]
      ensures Notifications(body) == [Notification(id, message, kind, false)]
      ensures head == EnsureStyle(EnsureStyle(old(head), NotificationStylesId), NotificationAnimationsId)
      ensures scrollLocked == old(scrollLocked) && escapeListeners == old(escapeListeners)
      ensures old(ListenersLive()) ==> ListenersLive()
    {
      id := nextId;
      var notification := Notification(id, message, kind, false);
      ShowLeavesOnlyNew(body, notification);
      ShowKeepsLightboxes(body, notification, nextId);
      body := WithoutFirstNotification(body) + [notification];
      nextId := nextId + 1;
      head := EnsureStyle(EnsureStyle(head, NotificationStylesId), NotificationAnimationsId);
    }

    /** The exit transition of notification id: its close button was clicked, or its
        5-second timer fired and found it still attached. */
    method BeginExit(id: nat)
      requires Valid()
      modifies this
      ensures Valid()
      ensures body == BeginLeaving(old(body), id)
      ensures head == old(head) && scrollLocked == old(scrollLocked)
      ensures escapeListeners == old(escapeListeners) && nextId == old(nextId)
      ensures old(ListenersLive()) ==> ListenersLive()
    {
      BeginLeavingMarksOnly(body, id);
      BeginLeavingKeepsCount(body, id);
      body := BeginLeaving(body, id);
    }

    /** The 300 ms removal timer of notification id (from the close button or from the
        auto-dismiss path); on an element already removed it changes nothing. */
    method RemoveNotification(id: nat)
      requires Valid()
      requires forall o :: o in body && o.id == id ==> o.Notification?
      modifies this
      ensures Valid()
      ensures body == Detach(old(body), id)
      ensures (forall o :: o in old(body) ==> o.id != id) ==> body == old(body)
      ensures (exists o :: o in old(body) && o.Notification? && o.id == id) ==> Notifications(body) == []
      ensures head == old(head) && scrollLocked == old(scrollLocked)
      ensures escapeListeners == old(escapeListeners) && nextId == old(nextId)
      ensures old(ListenersLive()) ==> ListenersLive()
    {
      DetachBounded(body, id, nextId);
      RemovingNotificationKeepsLightboxes(body, id);
      if exists o :: o in body && o.Notification? && o.id == id {
        var n :| n in body && n.Notification? && n.id == id;
        RemovingShownNotification(body, n);
      }
      body := Detach(body, id);
    }

    method OpenLightbox(url: string, caption: string) returns (id: nat)
      requires Valid()
      modifies this
      ensures Valid()
      ensures id == old(nextId) && nextId == id + 1
      ensures body == old(body) + [Lightbox(id, url, caption)]
      ensures scrollLocked
      ensures head == EnsureStyle(old(head), LightboxStylesId)
      ensures escapeListeners == old(escapeListeners) + [id]
      ensures old(ListenersLive()) ==> ListenersLive()
    {
      id := nextId;
      var lightbox := Lightbox(id, url, caption);
      OpenKeepsLightboxes(body, lightbox, nextId);
      DistinctSnoc(escapeListeners, id);
      body := body + [lightbox];
      nextId := nextId + 1;
      scrollLocked := true;
      head := EnsureStyle(head, LightboxStylesId);
      escapeListeners := escapeListeners + [id];
    }

    /** A click on the lightbox background or its close button, as written: the
        lightbox leaves and scrolling is restored, but its Escape listener stays. */
    method CloseLightboxByClick(id: nat)
      requires Valid() && HasLightbox(body, id)
      modifies this
      ensures Valid()
      ensures body == Detach(old(body), id) && !scrollLocked
      ensures escapeListeners == old(escapeListeners)
      ensures head == old(head) && nextId == old(nextId)
    {
      DetachBounded(body, id, nextId);
      body := Detach(body, id);
      scrollLocked := false;
    }

    /** The same click with the listener unregistered as well (the corrected close). */
    method CloseLightboxByClickUnregistering(id: nat)
      requires Valid() && HasLightbox(body, id)
      modifies this
      ensures Valid()
      ensures body == Detach(old(body), id) && !scrollLocked
      ensures escapeListeners == Unregister(old(escapeListeners), id)
      ensures head == old(head) && nextId == old(nextId)
      ensures old(ListenersLive()) ==> ListenersLive()
    {
      DetachBounded(body, id, nextId);
      UnregisterKeepsDistinct(escapeListeners, id);
      if ListenersLive() {
        DetachHasLightbox(body, id);
      }
      body := Detach(body, id);
      scrollLocked := false;
      escapeListeners := Unregister(escapeListeners, id);
    }

    /** An Escape keydown, delivered to every registered closeOnEsc listener; returns
        how many of them threw. */
    method PressEscape() returns (errors: nat)
      requires Valid()
      modifies this
      ensures Valid()
      ensures var r := EscapeDispatch(old(body), old(scrollLocked), old(escapeListeners));
              body == r.body && scrollLocked == r.scrollLocked && escapeListeners == r.kept && errors == r.errors
      ensures head == old(head) && nextId == old(nextId)
      ensures old(ListenersLive()) ==> ListenersLive() && errors == 0 && escapeListeners == []
    {
      EscapeDispatchBounded(body, scrollLocked, escapeListeners, nextId);
      MixedDispatch(body, scrollLocked, escapeListeners);
      if ListenersLive() {
        LiveListenersNeverThrow(body, scrollLocked, escapeListeners);
      }
      var kept;
      body, scrollLocked, kept, errors := DispatchEscape(body, scrollLocked, escapeListeners);
      escapeListeners := kept;
    }
  }

  /** The browser's dispatch of one keydown to the listeners registered when it
      started, in registration order, each one running closeOnEsc. Returns the new
      body and scroll lock, the listeners still registered and the number that threw. */
  method DispatchEscape(body0: seq<Overlay>, locked0: bool, snapshot: seq<nat>)
    returns (body: seq<Overlay>, scrollLocked: bool, kept: seq<nat>, errors: nat)
    ensures EscapeOutcome(body, scrollLocked, kept, errors) == EscapeDispatch(body0, locked0, snapshot)
  {
    body, scrollLocked, kept, errors := body0, locked0, [], 0;
    var i := 0;
    while i < |snapshot|
      invariant 0 <= i <= |snapshot|
      invariant EscapeDispatch(body0, locked0, snapshot[..i]) ==
                EscapeOutcome(body, scrollLocked, kept, errors)
    {
      var id := snapshot[i];
      EscapeDispatchSnoc(body0, locked0, snapshot, i);
      if HasLightbox(body, id) {
        body := Detach(body, id);
        scrollLocked := false;
      } else {
        kept := kept + [id];
        errors := errors + 1;
      }
      i := i + 1;
    }
    assert snapshot[..i] == snapshot;
  }

  /** As written: open a lightbox, close it by a click, press Escape. The Escape
      listener throws and is still registered afterwards. */
  method ClickCloseThenEscape() returns (errors: nat, stillRegistered: nat)
    ensures errors == 1 && stillRegistered == 1
  {
    var doc := new Document();
    var id := doc.OpenLightbox("project1.jpg", "Project");
    doc.CloseLightboxByClick(id);
    assert !HasLightbox(doc.body, id);
    errors := doc.PressEscape();
    stillRegistered := |doc.escapeListeners|;
  }

  /** A stale listener registered before a live one: the first throws and stays,
      the second removes its lightbox. */
  lemma StaleThenLive(body: seq<Overlay>, locked: bool, stale: nat, live: nat)
    requires !HasLightbox(body, stale) && HasLightbox(body, live)
    ensures var r := EscapeDispatch(body, locked, [stale, live]);
            r.kept == [stale] && r.errors == 1 && !HasLightbox(r.body, live)
  {
    var ls := [stale, live];
    assert ls[..0] == [] && ls[..1] == [stale] && ls[..2] == ls;
    EscapeDispatchSnoc(body, locked, ls, 0);
    EscapeDispatchSnoc(body, locked, ls, 1);
  }

  /** As written: open a lightbox, close it by a click, open a second one, press
      Escape. The second lightbox leaves, and the first listener throws and is the
      only one still registered. */
  method ReopenThenEscape() returns (errors: nat, first: nat, stale: seq<nat>, shown: bool)
    ensures errors == 1 && stale == [first] && !shown
  {
    var doc := new Document();
    first := doc.OpenLightbox("project1.jpg", "Project 1");
    doc.CloseLightboxByClick(first);
    var second := doc.OpenLightbox("project2.jpg", "Project 2");
    StaleThenLive(doc.body, doc.scrollLocked, first, second);
    errors := doc.PressEscape();
    stale := doc.escapeListeners;
    shown := HasLightbox(doc.body, second);
  }

  /** Corrected: the same steps with the click close unregistering the listener. */
  method ClickCloseThenEscapeCorrected() returns (errors: nat, stillRegistered: nat)
    ensures errors == 0 && stillRegistered == 0
  {
    var doc := new Document();
    var id := doc.OpenLightbox("project1.jpg", "Project");
    doc.CloseLightboxByClickUnregistering(id);
    errors := doc.PressEscape();
    stillRegistered := |doc.escapeListeners|;
  }
}
