/**
 Images as the host keeps it: the maps of views, loads, ImageRefs and pictures, and the steps that change them, a
 method for each of the source's and for each branch of theirs. `Valid()` is kept by every public one, so what
 follows from it holds whatever happened.
 */
module ImageHosts {
  import opened ImageBooks
  import opened Optional
  import opened Sets

  class Images {
    /** Whether JavaScript listens to a view's load events, and whether a URI names nothing that can be loaded. */
    const listens: Tag -> bool
    const broken: int -> bool

    var tree: map<Tag, View>
    var drawn: map<Tag, Picture>
    var events: map<Tag, seq<Event>>
    var shown: map<Tag, Shown>
    var expo: map<Tag, ExpoShown>
    var loads: map<Id, Fetch>
    var next: Id
    var pictures: map<Key, Picture>
    var refs: map<int, Option<Picture>>
    var refLoads: map<Id, int>
    var nextRef: nat
    /** What each loadAsync was answered: its picture, or none for an error. */
    var settled: map<int, Option<Picture>>
    /** Every view there has been; a tag is never used again. */
    ghost var kinds: map<Tag, Kind>

    predicate Heard(tag: Tag)
      reads this`tree
    {
      Hears(tree, listens, tag)
    }

    ghost predicate Told()
      reads this`tree, this`events, this`kinds, this`shown, this`expo
    {
      Known(tree, events, kinds) && ImagesTold(shown, tree, events, kinds, listens, broken) &&
        ExposTold(expo, tree, events, kinds)
    }

    ghost predicate Valid()
      reads this
    {
      Books(shown, expo, refLoads, loads, next, 0, {}) && Known(tree, events, kinds) &&
      ImagesTold(shown, tree, events, kinds, listens, broken) && ExposTold(expo, tree, events, kinds) &&
      RefsOnce(refLoads, settled, refs, nextRef)
    }

    // Who waits, and what nobody waits for.

    /** waited: over the views, the expo-image views and the ImageRefs. */
    method Waited(id: Id) returns (waited: bool)
      ensures waited == Waits(shown, expo, refLoads, id)
    {
      var left := shown.Keys;
      while left != {}
        invariant left <= shown.Keys
        invariant forall tag :: tag in shown && tag !in left ==> shown[tag].loading != id
      {
        Inhabited(left);
        var tag :| tag in left;
        if shown[tag].loading == id { return true; }
        left := left - {tag};
      }
      left := expo.Keys;
      while left != {}
        invariant left <= expo.Keys
        invariant forall tag :: tag in expo && tag !in left ==> !expo[tag].Awaits(id)
      {
        Inhabited(left);
        var tag :| tag in left;
        if expo[tag].Awaits(id) { return true; }
        left := left - {tag};
      }
      return id in refLoads;
    }

    /** release: takes the load off exactly when `Waits` does not hold of it. */
    method Release(id: Id)
      modifies this`loads
      ensures loads == Released(old(loads), id, Waits(shown, expo, refLoads, id))
    {
      if id == 0 || id !in loads { return; }
      var waited := Waited(id);
      if waited { return; }
      loads := loads - {id};
    }

    /** The last load on its way for a key, or 0. */
    method LastLoad(key: Key) returns (found: Id)
      requires forall id :: id in loads ==> 0 < id <= next
      ensures found == 0 ==> forall id :: id in loads ==> loads[id].key != key
      ensures found != 0 ==> found in loads && loads[found].key == key
      ensures found != 0 ==> forall id :: id in loads && loads[id].key == key ==> id <= found
    {
      found := 0;
      for id := 1 to next + 1
        invariant found == 0 ==> forall other :: other in loads && other < id ==> loads[other].key != key
        invariant found != 0 ==> found < id && found in loads && loads[found].key == key
        invariant found != 0 ==>
          forall other :: other in loads && other < id && loads[other].key == key ==> other <= found
      {
        if id in loads && loads[id].key == key { found := id; }
      }
    }

    /** The first load on its way for a key, or 0. */
    method FirstLoad(key: Key) returns (found: Id)
      requires forall id :: id in loads ==> 0 < id <= next
      ensures found == 0 ==> forall id :: id in loads ==> loads[id].key != key
      ensures found != 0 ==> found in loads && loads[found].key == key
      ensures found != 0 ==> forall id :: id in loads && loads[id].key == key ==> found <= id
    {
      for id := 1 to next + 1
        invariant forall other :: other in loads && other < id ==> loads[other].key != key
      {
        if id in loads && loads[id].key == key { return id; }
      }
      return 0;
    }

    // What an Image view's JavaScript is told.

    /** started */
    method Started(tag: Tag)
      modifies this`events
      ensures events == if Heard(tag) then Said(old(events), tag, [LoadStart]) else old(events)
    {
      if tag !in tree || !tree[tag].ImageView? || !listens(tag) { return; }
      events := Said(events, tag, [LoadStart]);
    }

    /** loaded: the view draws the picture; told once for its source. */
    method Loaded(tag: Tag, picture: Picture)
      requires tag in shown
      modifies this`events, this`shown, this`drawn
      ensures drawn == if tag in tree then old(drawn)[tag := picture] else old(drawn)
      ensures shown == old(shown)[tag := old(shown)[tag].(told := true)]
      ensures events ==
        if Heard(tag) && !old(shown)[tag].told then Said(old(events), tag, [Event.Load, LoadEnd]) else old(events)
    {
      if tag in tree { drawn := drawn[tag := picture]; }
      var told := shown[tag].told;
      shown := shown[tag := shown[tag].(told := true)];
      if told || tag !in tree || !tree[tag].ImageView? || !listens(tag) { return; }
      events := Said(events, tag, [Event.Load]);
      events := Said(events, tag, [LoadEnd]);
      assert TraceOf(events, tag) == TraceOf(old(events), tag) + [Event.Load, LoadEnd];
    }

    /** failed: the view shows nothing, unless its source is shown already, decoded again for another size. */
    method Failed(tag: Tag)
      requires tag in shown
      modifies this`events, this`shown, this`drawn
      ensures drawn == if old(shown)[tag].told then old(drawn) else old(drawn) - {tag}
      ensures shown == old(shown)[tag := old(shown)[tag].(told := true)]
      ensures events ==
        if Heard(tag) && !old(shown)[tag].told then Said(old(events), tag, [Error, LoadEnd]) else old(events)
    {
      var told := shown[tag].told;
      shown := shown[tag := shown[tag].(told := true)];
      if told { return; }
      drawn := drawn - {tag};
      if tag !in tree || !tree[tag].ImageView? || !listens(tag) { return; }
      events := Said(events, tag, [Error]);
      events := Said(events, tag, [LoadEnd]);
      assert TraceOf(events, tag) == TraceOf(old(events), tag) + [Error, LoadEnd];
    }

    // sync, for an Image view.

    /** A view that shows nothing more waits for nothing: its load is cancelled, if no other waits for it. */
    method Forget(tag: Tag)
      requires Valid()
      modifies this`shown, this`loads
      ensures Valid() && shown == old(shown) - {tag} && Fewer(loads, old(loads))
      ensures forall id :: id in old(loads) && id !in loads ==> tag in old(shown) && old(shown)[tag].loading == id
    {
      hide Books, Known, ImagesTold, ExposTold, RefsOnce;
      if tag !in shown { return; }
      var loading := shown[tag].loading;
      shown := shown - {tag};
      ShownBooks(old(shown), shown, expo, refLoads, loads, next, 0, {}, tag);
      Release(loading);
      ReleasedBooks(shown, expo, refLoads, old(loads), next, 0, {loading}, loading);
      assert {loading} - {loading} == {};
      OneImageTold(old(shown), shown, expo, tree, events, events, kinds, listens, broken, tag);
    }

    /** A view waits as `entry` says from now on; what it waited for is released. */
    method Replace(tag: Tag, entry: Shown)
      requires Books(shown, expo, refLoads, loads, next, 0, {entry.loading}) && Live(loads, entry.loading, entry.key, 0)
      modifies this`shown, this`loads
      ensures Books(shown, expo, refLoads, loads, next, 0, {})
      ensures shown == old(shown)[tag := entry]
      ensures Fewer(loads, old(loads))
      ensures forall id :: id in old(loads) && id !in loads ==> tag in old(shown) && old(shown)[tag].loading == id
    {
      hide Books;
      var before := LoadingOf(shown, tag);
      shown := shown[tag := entry];
      ShownBooks(old(shown), shown, expo, refLoads, loads, next, 0, {entry.loading}, tag);
      Release(before);
      ReleasedBooks(shown, expo, refLoads, old(loads), next, 0, {before}, before);
      assert {before} - {before} == {};
    }

    /** A load begun for a key, or refused: then 0. */
    method Begin(key: Key, memory: bool, begins: bool) returns (id: Id)
      requires Books(shown, expo, refLoads, loads, next, 0, {})
      modifies this`loads, this`next
      ensures next == old(next) + 1 && id == if begins then next else 0
      ensures loads == if begins then old(loads)[next := Fetch(key, memory)] else old(loads)
      ensures next !in old(loads)
      ensures Books(shown, expo, refLoads, loads, next, 0, {id})
      ensures id == 0 ==> Books(shown, expo, refLoads, loads, next, 0, {})
    {
      hide Books;
      BooksRange(shown, expo, refLoads, loads, next, 0, {});
      BegunBooks(shown, expo, refLoads, loads, next, 0, Fetch(key, memory));
      next := next + 1;
      id := next;
      loads := loads[id := Fetch(key, memory)];
      if !begins {
        loads := loads - {id};
        TakenBack(old(loads), id, Fetch(key, memory));
        id := 0;
        MoreSpare(shown, expo, refLoads, loads, next, 0, {}, {0});
      }
    }

    /** The load found on its way, or one begun for the key; 0 if it is refused. */
    method Join(found: Id, key: Key, memory: bool, begins: bool) returns (id: Id)
      requires Books(shown, expo, refLoads, loads, next, 0, {})
      requires found == 0 ==> !OnItsWay(loads, key)
      requires found != 0 ==> found in loads && loads[found].key == key
      modifies this`loads, this`next
      ensures Books(shown, expo, refLoads, loads, next, 0, {id})
      ensures id == 0 ==> Books(shown, expo, refLoads, loads, next, 0, {})
      ensures id != 0 <==> found != 0 || begins
      ensures id != 0 ==> id in loads && loads[id].key == key
      ensures found != 0 ==> id == found && loads == old(loads) && next == old(next)
      ensures found == 0 ==> next == old(next) + 1 && next !in old(loads)
      ensures found == 0 ==> loads == if begins then old(loads)[next := Fetch(key, memory)] else old(loads)
      ensures NoSecond(old(loads), old(next), loads, next)
    {
      if found != 0 {
        MoreSpare(shown, expo, refLoads, loads, next, 0, {}, {found});
        return found;
      }
      hide Books;
      id := Begin(key, memory, begins);
    }

    /** A source that cannot be loaded, told so once. */
    method ShowBroken(tag: Tag, source: Source, entry: Shown)
      requires Valid() && tag in tree && tree[tag].ImageView? && Asked(tag, source, entry) && broken(source.uri)
      modifies this`shown, this`drawn, this`events, this`loads
      ensures Valid() && tag in shown && shown[tag].loading == 0
      ensures Synced(old(shown), shown, old(events), events, tag, source, Heard(tag), false)
      ensures Fewer(loads, old(loads))
      ensures forall id :: id in old(loads) && id !in loads ==> tag in old(shown) && old(shown)[tag].loading == id
      ensures drawn == if ToldBefore(old(shown), tag, source) then old(drawn) else old(drawn) - {tag}
    {
      hide Books, Known, ImagesTold, ExposTold, RefsOnce, Synced;
      var same := SameSource(shown, tag, source);
      if same { BrokenTold(shown, tree, events, kinds, listens, broken, tag); }
      MoreSpare(shown, expo, refLoads, loads, next, 0, {}, {0});
      Replace(tag, entry);
      if !same {
        Started(tag);
        ToldBooks(shown, expo, refLoads, loads, next, 0, {}, tag);
        Failed(tag);
      }
      ghost var last := entry.(told := true);
      assert shown == old(shown)[tag := last];
      assert events ==
        SyncTells(old(events), Heard(tag), tag, same, tag in old(shown) &&
        old(shown)[tag].told, last.loading != 0, false);
      SyncedBy(old(shown), last, old(events), tag, source, Heard(tag), false);
      SyncedTold(old(shown), shown, expo, tree, old(events), events, kinds, listens, broken, tag, source, false);
    }

    /** The picture the cache holds for the source's key, drawn without a load. */
    method ShowHeld(tag: Tag, source: Source, entry: Shown, picture: Picture)
      requires Valid() && tag in tree && tree[tag].ImageView? && Asked(tag, source, entry)
      modifies this`shown, this`drawn, this`events, this`loads
      ensures Valid() && tag in shown && shown[tag].loading == 0
      ensures Synced(old(shown), shown, old(events), events, tag, source, Heard(tag), true)
      ensures Fewer(loads, old(loads))
      ensures forall id :: id in old(loads) && id !in loads ==> tag in old(shown) && old(shown)[tag].loading == id
      ensures drawn == old(drawn)[tag := picture]
    {
      hide Books, Known, ImagesTold, ExposTold, RefsOnce, Synced;
      var same := SameSource(shown, tag, source);
      MoreSpare(shown, expo, refLoads, loads, next, 0, {}, {0});
      Replace(tag, entry);
      if !same { Started(tag); }
      ToldBooks(shown, expo, refLoads, loads, next, 0, {}, tag);
      Loaded(tag, picture);
      ghost var last := entry.(told := true);
      assert shown == old(shown)[tag := last];
      assert events ==
        SyncTells(old(events), Heard(tag), tag, same, tag in old(shown) &&
        old(shown)[tag].told, last.loading != 0, true);
      SyncedBy(old(shown), last, old(events), tag, source, Heard(tag), true);
      SyncedTold(old(shown), shown, expo, tree, old(events), events, kinds, listens, broken, tag, source, true);
    }

    /** A load that could not start. */
    method ShowRefused(tag: Tag, source: Source, entry: Shown)
      requires Valid() && tag in tree && tree[tag].ImageView? && Asked(tag, source, entry)
      modifies this`shown, this`drawn, this`events, this`loads
      ensures Valid() && tag in shown && shown[tag].loading == 0
      ensures Synced(old(shown), shown, old(events), events, tag, source, Heard(tag), false)
      ensures Fewer(loads, old(loads))
      ensures forall id :: id in old(loads) && id !in loads ==> tag in old(shown) && old(shown)[tag].loading == id
      ensures drawn == if ToldBefore(old(shown), tag, source) then old(drawn) else old(drawn) - {tag}
    {
      hide Books, Known, ImagesTold, ExposTold, RefsOnce, Synced;
      var same := SameSource(shown, tag, source);
      MoreSpare(shown, expo, refLoads, loads, next, 0, {}, {0});
      Replace(tag, entry);
      if !same { Started(tag); }
      ToldBooks(shown, expo, refLoads, loads, next, 0, {}, tag);
      Failed(tag);
      ghost var last := entry.(told := true);
      assert shown == old(shown)[tag := last];
      assert events ==
        SyncTells(old(events), Heard(tag), tag, same, tag in old(shown) && old(shown)[tag].told, false, false);
      SyncedBy(old(shown), last, old(events), tag, source, Heard(tag), false);
      SyncedTold(old(shown), shown, expo, tree, old(events), events, kinds, listens, broken, tag, source, false);
    }

    /** The view waits for a load. */
    method ShowWaiting(tag: Tag, source: Source, entry: Shown, loading: Id)
      requires Books(shown, expo, refLoads, loads, next, 0, {loading}) && loading in loads &&
        loads[loading].key == source.key
      requires Told() && tag in tree && tree[tag].ImageView? && Asked(tag, source, entry) && !broken(source.uri) &&
        loading != 0
      modifies this`shown, this`events, this`loads
      ensures Books(shown, expo, refLoads, loads, next, 0, {}) && Told() && tag in shown &&
        shown[tag].loading == loading
      ensures Synced(old(shown), shown, old(events), events, tag, source, Heard(tag), false)
      ensures Fewer(loads, old(loads))
      ensures forall id :: id in old(loads) && id !in loads ==> tag in old(shown) && old(shown)[tag].loading == id
    {
      hide Books, Known, ImagesTold, ExposTold, Synced;
      var same := SameSource(shown, tag, source);
      Replace(tag, entry.(loading := loading));
      if !same { Started(tag); }
      ghost var last := entry.(loading := loading);
      assert shown == old(shown)[tag := last];
      assert events ==
        SyncTells(old(events), Heard(tag), tag, same, tag in old(shown) && old(shown)[tag].told, true, false);
      SyncedBy(old(shown), last, old(events), tag, source, Heard(tag), false);
      SyncedTold(old(shown), shown, expo, tree, old(events), events, kinds, listens, broken, tag, source, false);
    }

    /** The view joins the load there is for its key, or begins the only one. */
    method ShowLoading(tag: Tag, source: Source, entry: Shown, begins: bool)
      requires Valid() && tag in tree && tree[tag].ImageView? && Asked(tag, source, entry) && !broken(source.uri)
      modifies this`shown, this`drawn, this`events, this`loads, this`next
      ensures Valid() && tag in shown && (shown[tag].loading != 0 <==> begins || OnItsWay(old(loads), source.key))
      ensures Synced(old(shown), shown, old(events), events, tag, source, Heard(tag), false)
      ensures NoSecond(old(loads), old(next), loads, next)
      ensures forall id ::
        id in loads && id !in old(loads) ==> id == old(next) + 1 && loads[id].key == source.key && begins
      ensures forall id :: id in old(loads) && id !in loads ==> tag in old(shown) && old(shown)[tag].loading == id
      ensures drawn ==
        if shown[tag].loading != 0 || ToldBefore(old(shown), tag, source) then old(drawn) else old(drawn) - {tag}
    {
      hide Books, Known, ImagesTold, ExposTold, RefsOnce, Synced;
      BooksRange(shown, expo, refLoads, loads, next, 0, {});
      var found := LastLoad(source.key);
      var loading := Join(found, source.key, true, begins);
      if loading == 0 {
        ShowRefused(tag, source, entry);
      } else {
        ShowWaiting(tag, source, entry, loading);
      }
    }

    /** What is kept of a source asked for anew: told what it was told, if only its size is new. */
    predicate Asked(tag: Tag, source: Source, entry: Shown)
      reads this`shown
    {
      entry == Shown(source.key, source.uri, source.scale, 0, SameSource(shown, tag, source) && shown[tag].told)
    }

    /** sync, for one Image view and the source chosen for it. */
    method SyncImage(tag: Tag, source: Source, begins: bool, alive: bool)
      requires Valid() && tag in tree && tree[tag].ImageView?
      modifies this`shown, this`drawn, this`events, this`loads, this`next
      ensures Valid()
      ensures !Anew(old(shown), tag, source) ==>
        shown == old(shown) && events == old(events) && loads == old(loads) && next == old(next) && drawn == old(drawn)
      ensures Anew(old(shown), tag, source) ==>
        var held := alive && source.key in pictures;
        Synced(old(shown), shown, old(events), events, tag, source, Heard(tag), !broken(source.uri) && held) &&
        (shown[tag].loading != 0 <==> !broken(source.uri) && !held && (begins || OnItsWay(old(loads), source.key))) &&
        drawn == if !broken(source.uri) && held then old(drawn)[tag := pictures[source.key]]
                 else if shown[tag].loading != 0 || ToldBefore(old(shown), tag, source) then old(drawn)
                 else old(drawn) - {tag}
      ensures NoSecond(old(loads), old(next), loads, next)
      ensures forall id ::
        id in loads && id !in old(loads) ==> id == old(next) + 1 && loads[id].key == source.key && begins
      ensures forall id :: id in old(loads) && id !in loads ==> tag in old(shown) && old(shown)[tag].loading == id
    {
      hide Books, Known, ImagesTold, ExposTold, RefsOnce, Synced;
      BooksRange(shown, expo, refLoads, loads, next, 0, {});
      if tag in shown && shown[tag].key == source.key && shown[tag].uri == source.uri { return; }
      var same := tag in shown && shown[tag].uri == source.uri && shown[tag].scale == source.scale;
      var entry := Shown(source.key, source.uri, source.scale, 0, same && shown[tag].told);
      if broken(source.uri) {
        ShowBroken(tag, source, entry);
      } else if alive && source.key in pictures {
        ShowHeld(tag, source, entry, pictures[source.key]);
      } else {
        ShowLoading(tag, source, entry, begins);
      }
    }

    // expo-image's views.

    /** cancel: the request waits for its load no more. */
    method Cancel(tag: Tag, w: Which, ghost gone: Id)
      requires tag in expo && Books(shown, expo, refLoads, loads, next, gone, {})
      modifies this`expo, this`loads
      ensures Books(shown, expo, refLoads, loads, next, gone, {})
      ensures expo == old(expo)[tag := Stopped(old(expo)[tag], w)]
      ensures NoSecond(old(loads), next, loads, next)
    {
      var id := Part(expo[tag], w).loading;
      BooksRange(shown, expo, refLoads, loads, next, gone, {});
      StoppedBooks(shown, expo, refLoads, loads, next, gone, tag, w);
      hide Books;
      expo := expo[tag := Stopped(expo[tag], w)];
      Release(id);
      ReleasedBooks(shown, expo, refLoads, old(loads), next, gone, {id}, id);
      assert {id} - {id} == {};
    }

    /** expoLoaded: the view is given a picture it asked for. */
    method ExpoLoaded(tag: Tag, w: Which, ghost gone: Id)
      requires tag in expo && Books(shown, expo, refLoads, loads, next, gone, {}) && Told()
      requires tag in tree ==> tree[tag].ExpoView?
      requires Part(expo[tag], w).loading == gone && (w.Resized? ==> expo[tag].main.loading == 0)
      requires w.Main? && tag in tree ==> !expo[tag].told && ExpoPhase(TraceOf(events, tag)).Loading?
      requires tag !in tree ==> gone != 0
      modifies this`expo, this`loads, this`events
      ensures Books(shown, expo, refLoads, loads, next, gone, {}) && Told()
      ensures expo == old(expo)[tag := if tag in tree then Given(old(expo)[tag], w) else Stopped(old(expo)[tag], w)]
      ensures SaidTo(old(events), events, tag)
      ensures TraceOf(events, tag) == TraceOf(old(events), tag) + if tag in tree then Outcome(false, w, true) else []
      ensures NoSecond(old(loads), next, loads, next)
    {
      hide Books, Known, ImagesTold, ExposTold;
      ghost var was, e := expo, expo[tag];
      BooksRange(shown, expo, refLoads, loads, next, gone, {});
      if tag !in tree {
        AnsweredBooks(shown, expo, refLoads, loads, next, gone, tag, w, Stopped(e, w));
        expo := expo[tag := Stopped(expo[tag], w)];
        AnsweredTold(shown, was, expo[tag], tree, events, events, kinds, listens, broken, tag, w, true);
        return;
      }
      match w {
        case Resized =>
          AnsweredBooks(shown, expo, refLoads, loads, next, gone, tag, w, Given(e, w));
          expo := expo[tag := expo[tag].(main := expo[tag].main.(key := expo[tag].resized.key), resized := NOTHING)];
        case Placeholder =>
          AnsweredBooks(shown, expo, refLoads, loads, next, gone, tag, w, Stopped(e, w));
          expo := expo[tag := Stopped(expo[tag], w)];
        case Main =>
          SourceLoaded(tag, gone);
      }
      AnsweredTold(shown, was, expo[tag], tree, old(events), events, kinds, listens, broken, tag, w, true);
    }

    /** expoLoaded, for the source: its placeholder is no longer wanted. */
    method SourceLoaded(tag: Tag, ghost gone: Id)
      requires tag in expo && Books(shown, expo, refLoads, loads, next, gone, {}) && expo[tag].main.loading == gone
      modifies this`expo, this`loads, this`events
      ensures Books(shown, expo, refLoads, loads, next, gone, {})
      ensures expo == old(expo)[tag := Given(old(expo)[tag], Main)]
      ensures SaidTo(old(events), events, tag)
      ensures TraceOf(events, tag) ==
        TraceOf(old(events), tag) + if old(expo)[tag].told then [] else [Display, Event.Load]
      ensures NoSecond(old(loads), next, loads, next)
    {
      hide Books;
      var first := !expo[tag].told;
      AnsweredBooks(shown, expo, refLoads, loads, next, gone, tag, Main, Stopped(expo[tag], Main).(told := true));
      expo := expo[tag := Stopped(expo[tag], Main).(told := true)];
      Cancel(tag, Placeholder, gone);
      if !first { return; }
      events := Said(events, tag, [Display]);
      events := Said(events, tag, [Event.Load]);
      assert TraceOf(events, tag) == TraceOf(old(events), tag) + [Display, Event.Load];
    }

    /** expoFailed: a placeholder that fails says nothing; the source's error is told once. */
    method ExpoFailed(tag: Tag, w: Which, ghost gone: Id)
      requires tag in expo && Books(shown, expo, refLoads, loads, next, gone, {}) && Told()
      requires tag in tree ==> tree[tag].ExpoView?
      requires Part(expo[tag], w).loading == gone && (w.Resized? ==> expo[tag].main.loading == 0)
      requires w.Main? && tag in tree ==> !expo[tag].told && ExpoPhase(TraceOf(events, tag)).Loading?
      requires tag !in tree ==> gone != 0
      modifies this`expo, this`events
      ensures Books(shown, expo, refLoads, loads, next, gone, {}) && Told()
      ensures expo == old(expo)[tag := Refused(old(expo)[tag], w)]
      ensures SaidTo(old(events), events, tag)
      ensures TraceOf(events, tag) == TraceOf(old(events), tag) + if tag in tree then Outcome(false, w, false) else []
    {
      hide Books, Known, ImagesTold, ExposTold;
      ghost var was, e := expo, expo[tag];
      AnsweredBooks(shown, expo, refLoads, loads, next, gone, tag, w, Refused(e, w));
      var told := expo[tag].told;
      match w {
        case Resized =>
          expo := expo[tag := expo[tag].(resized := NOTHING)];
        case Placeholder =>
          expo := expo[tag := Stopped(expo[tag], w)];
        case Main =>
          expo := expo[tag := Stopped(expo[tag], w).(told := true)];
          if !told && tag in tree { events := Said(events, tag, [Error]); }
      }
      AnsweredTold(shown, was, expo[tag], tree, old(events), events, kinds, listens, broken, tag, w, false);
    }

    /** request: each of its four ends, with what is told in it. */
    method Request(tag: Tag, w: Which, memory: bool, begins: bool, alive: bool)
      requires tag in expo && Books(shown, expo, refLoads, loads, next, 0, {}) && Told() && HearsExpo(tree, tag)
      requires Part(expo[tag], w).loading == 0 && (w.Resized? ==> expo[tag].main.loading == 0)
      requires w.Main? ==> !expo[tag].told && expo[tag].resized.loading == 0 && ExpoPhase(TraceOf(events, tag)).Loading?
      modifies this`expo, this`loads, this`next, this`events
      ensures Books(shown, expo, refLoads, loads, next, 0, {}) && Told()
      ensures tag in expo && expo == old(expo)[tag := expo[tag]] && SaidTo(old(events), events, tag)
      ensures var key := Part(old(expo)[tag], w).key;
              var held, waiting := memory && alive && key in pictures, begins || OnItsWay(old(loads), key);
              Requested(old(expo)[tag], expo[tag], w, held, waiting) &&
              TraceOf(events, tag) ==
                TraceOf(old(events), tag) + if !held && waiting then [] else Outcome(false, w, held)
      ensures NoSecond(old(loads), old(next), loads, next)
    {
      hide Books, Told, Given, Refused, NoSecond, ExpoPhase;
      BooksRange(shown, expo, refLoads, loads, next, 0, {});
      var key := Part(expo[tag], w).key;
      if memory && alive && key in pictures {
        ExpoLoaded(tag, w, 0);
        return;
      }
      var found := FirstLoad(key);
      var id := Join(found, key, memory, begins);
      if id == 0 {
        ExpoFailed(tag, w, 0);
        return;
      }
      Await(tag, w, id);
    }

    /** The view waits for a load. */
    method Await(tag: Tag, w: Which, id: Id)
      requires tag in expo && Books(shown, expo, refLoads, loads, next, 0, {id}) && Told() && HearsExpo(tree, tag)
      requires id in loads && loads[id].key == Part(expo[tag], w).key
      requires Part(expo[tag], w).loading == 0 && (w.Resized? ==> expo[tag].main.loading == 0)
      requires w.Main? ==> !expo[tag].told && expo[tag].resized.loading == 0 && ExpoPhase(TraceOf(events, tag)).Loading?
      modifies this`expo
      ensures Books(shown, expo, refLoads, loads, next, 0, {}) && Told()
      ensures expo == old(expo)[tag := Asking(old(expo)[tag], w, id)]
    {
      hide Books, Known, ImagesTold, ExposTold, ExpoPhase;
      AskingBooks(shown, expo, refLoads, loads, next, tag, w, id);
      AskingTold(shown, expo, tree, events, kinds, listens, broken, tag, w, id);
      expo := expo[tag := Asking(expo[tag], w, id)];
    }

    /** Everything a view waits for, cancelled. */
    method CancelAll(tag: Tag)
      requires tag in expo && Books(shown, expo, refLoads, loads, next, 0, {}) && Told()
      modifies this`expo, this`loads
      ensures Books(shown, expo, refLoads, loads, next, 0, {}) && Told()
      ensures expo == old(expo)[tag := Stopped(Stopped(Stopped(old(expo)[tag], Main), Placeholder), Resized)]
      ensures NoSecond(old(loads), next, loads, next)
    {
      hide Books, Known, ImagesTold, ExposTold;
      Cancel(tag, Main, 0);
      Cancel(tag, Placeholder, 0);
      Cancel(tag, Resized, 0);
      RestTold(shown, old(expo), tree, events, kinds, listens, broken, tag, expo[tag]);
      assert expo == old(expo)[tag := expo[tag]];
    }

    /** clearExpo: the view waits for nothing and shows nothing. */
    method ClearExpo(tag: Tag)
      requires tag in expo && Books(shown, expo, refLoads, loads, next, 0, {}) && Told()
      modifies this`expo, this`loads
      ensures Books(shown, expo, refLoads, loads, next, 0, {}) && Told()
      ensures expo == old(expo)[tag := Cleared(old(expo)[tag])]
      ensures NoSecond(old(loads), next, loads, next)
    {
      hide Books, Known, ImagesTold, ExposTold;
      CancelAll(tag);
      RestBooks(shown, expo, refLoads, loads, next, tag, Cleared(expo[tag]));
      RestTold(shown, expo, tree, events, kinds, listens, broken, tag, Cleared(expo[tag]));
      expo := expo[tag := expo[tag].(main := NOTHING, placeholder := NOTHING, resized := NOTHING, told := false)];
    }

    /** A source asked for anew: told from its start. */
    method Restart(tag: Tag, props: ExpoProps)
      requires tag in expo && Books(shown, expo, refLoads, loads, next, 0, {}) && Told() && HearsExpo(tree, tag)
      modifies this`expo, this`loads, this`events
      ensures Books(shown, expo, refLoads, loads, next, 0, {}) && Told()
      ensures expo == old(expo)[tag := Fresh(old(expo)[tag], props)]
      ensures events == Said(old(events), tag, [LoadStart]) && ExpoPhase(TraceOf(events, tag)).Loading?
      ensures NoSecond(old(loads), next, loads, next)
    {
      hide Books, Known, ImagesTold, ExposTold;
      CancelAll(tag);
      var e := Fresh(expo[tag], props);
      RestBooks(shown, expo, refLoads, loads, next, tag, e);
      RestTold(shown, expo, tree, events, kinds, listens, broken, tag, e);
      expo := expo[tag := e];
      events := Said(events, tag, [LoadStart]);
      StartTold(shown, expo, tree, old(events), kinds, listens, broken, tag);
    }

    /** Whether the picture of a view's source is at hand. */
    predicate AtHand(props: ExpoProps, alive: bool)
      reads this`refs, this`pictures
    {
      match props.main
      case NoMain => false
      case RefMain(ref, _) => ref in refs && refs[ref].Some?
      case BestMain(source) => props.memory && alive && source.key in pictures
    }

    /** The view's source, asked for. */
    method AskMain(tag: Tag, props: ExpoProps, begins: bool, alive: bool)
      requires tag in expo && Books(shown, expo, refLoads, loads, next, 0, {}) && Told() && HearsExpo(tree, tag)
      requires !expo[tag].told && AtRest(expo[tag]) && ExpoPhase(TraceOf(events, tag)).Loading?
      requires props.main.BestMain? ==> expo[tag].main.key == props.main.source.key
      modifies this`expo, this`loads, this`next, this`events
      ensures Books(shown, expo, refLoads, loads, next, 0, {}) && Told() && SaidTo(old(events), events, tag)
      ensures tag in expo && expo == old(expo)[tag := expo[tag]]
      ensures var e, now := old(expo)[tag], expo[tag];
              now == e.(main := e.main.(loading := now.main.loading), told := now.told) &&
              (now.told <==> !props.main.NoMain? && now.main.loading == 0) &&
              (props.main.BestMain? && begins && !AtHand(props, alive) ==> now.main.loading != 0)
      ensures TraceOf(events, tag) ==
                TraceOf(old(events), tag) + if expo[tag].told then Outcome(false, Main, AtHand(props, alive)) else []
      ensures NoSecond(old(loads), old(next), loads, next)
    {
      hide Books, Told, NoSecond, ExpoPhase;
      Unmoved();
      match props.main {
        case NoMain =>
        case RefMain(ref, _) =>
          if ref in refs && refs[ref].Some? { ExpoLoaded(tag, Main, 0); } else { ExpoFailed(tag, Main, 0); }
        case BestMain(_) =>
          Request(tag, Main, props.memory, begins, alive);
      }
    }

    lemma Unmoved()
      requires Books(shown, expo, refLoads, loads, next, 0, {})
      ensures NoSecond(loads, next, loads, next)
    {
    }

    /** syncExpo, for a source or a placeholder other than it showed. */
    method ShowAnew(tag: Tag, props: ExpoProps, begins: Which -> bool, alive: Which -> bool)
      requires tag in expo && Books(shown, expo, refLoads, loads, next, 0, {}) && Told() && HearsExpo(tree, tag)
      modifies this`expo, this`loads, this`next, this`events
      ensures Books(shown, expo, refLoads, loads, next, 0, {}) && Told() && SaidTo(old(events), events, tag)
      ensures tag in expo && expo == old(expo)[tag := expo[tag]]
      ensures ShownAnew(old(expo)[tag], expo[tag], props)
      ensures props.main.BestMain? && begins(Main) && !AtHand(props, alive(Main)) ==> expo[tag].main.loading != 0
      ensures TraceOf(events, tag) == TraceOf(old(events), tag) + [LoadStart] +
                                      if expo[tag].told then Outcome(false, Main, AtHand(props, alive(Main))) else []
      ensures NoSecond(old(loads), old(next), loads, next)
    {
      hide Books, Told, NoSecond, ExpoPhase, Outcome, AtHand;
      Restart(tag, props);
      ghost var started := loads;
      AskMain(tag, props, begins(Main), alive(Main));
      NoSecondSince(old(loads), old(next), started, old(next), loads, next);
      if props.placeholder.Some? && !expo[tag].told {
        ghost var before, was := loads, next;
        AskPlaceholder(tag, begins(Placeholder), alive(Placeholder));
        NoSecondSince(old(loads), old(next), before, was, loads, next);
      }
    }

    /** The view's placeholder, asked for beside its source. */
    method AskPlaceholder(tag: Tag, begins: bool, alive: bool)
      requires tag in expo && Books(shown, expo, refLoads, loads, next, 0, {}) && Told() && HearsExpo(tree, tag)
      requires expo[tag].placeholder.loading == 0
      modifies this`expo, this`loads, this`next, this`events
      ensures Books(shown, expo, refLoads, loads, next, 0, {}) && Told()
      ensures tag in expo && expo == old(expo)[tag := expo[tag]] && SaidTo(old(events), events, tag)
      ensures TraceOf(events, tag) == TraceOf(old(events), tag)
      ensures var e, now :=
        old(expo)[tag], expo[tag]; now == e.(placeholder := e.placeholder.(loading := now.placeholder.loading))
      ensures NoSecond(old(loads), old(next), loads, next)
    {
      hide Books, Told, NoSecond, ExpoPhase;
      Request(tag, Placeholder, true, begins, alive);
    }

    /** syncExpo at a new size alone: no event but an outcome still owed. */
    method Resize(tag: Tag, props: ExpoProps, begins: bool, alive: bool)
      requires tag in expo && Books(shown, expo, refLoads, loads, next, 0, {}) && Told() && HearsExpo(tree, tag)
      requires !AsksAnew(expo[tag], props)
      modifies this`expo, this`loads, this`next, this`events
      ensures Books(shown, expo, refLoads, loads, next, 0, {}) && Told() && SaidTo(old(events), events, tag)
      ensures tag in expo && expo == old(expo)[tag := expo[tag]]
      ensures SizedAlike(old(expo)[tag], props) ==>
        expo == old(expo) && loads == old(loads) && next == old(next) && events == old(events)
      ensures !SizedAlike(old(expo)[tag], props) ==>
        ShownResized(old(expo)[tag], expo[tag], props) && (begins && !AtHand(props, alive) ==> !AtRest(expo[tag]))
      ensures TraceOf(events, tag) == TraceOf(old(events), tag) +
                if expo[tag].told && !old(expo)[tag].told then Outcome(false, Main, AtHand(props, alive)) else []
      ensures NoSecond(old(loads), old(next), loads, next)
    {
      hide Books, Told, NoSecond, ExpoPhase;
      Unmoved();
      LoadingUntold(shown, expo, refLoads, loads, next, tag);
      if !props.main.BestMain? || props.fixed { return; }
      var key := props.main.source.key;
      if key == expo[tag].main.key || (expo[tag].resized.loading != 0 && key == expo[tag].resized.key) { return; }
      if expo[tag].main.loading != 0 {
        AskAgain(tag, props, begins, alive);
      } else {
        Redecode(tag, props, begins, alive);
      }
    }

    /** The source's load is replaced by one for the new key, with no event unless that one ends at once. */
    method AskAgain(tag: Tag, props: ExpoProps, begins: bool, alive: bool)
      requires tag in expo && Books(shown, expo, refLoads, loads, next, 0, {}) && Told() && HearsExpo(tree, tag)
      requires props.main.BestMain? && expo[tag].main.loading != 0
      modifies this`expo, this`loads, this`next, this`events
      ensures Books(shown, expo, refLoads, loads, next, 0, {}) && Told() && SaidTo(old(events), events, tag)
      ensures tag in expo && expo == old(expo)[tag := expo[tag]]
      ensures AskedAgain(old(expo)[tag], expo[tag], props.main.source.key)
      ensures begins && !AtHand(props, alive) ==> expo[tag].main.loading != 0
      ensures TraceOf(events, tag) == TraceOf(old(events), tag) +
                if expo[tag].told then Outcome(false, Main, AtHand(props, alive)) else []
      ensures NoSecond(old(loads), old(next), loads, next)
    {
      hide Books, Known, ImagesTold, ExposTold, NoSecond, ExpoPhase, ExpoTold;
      StillLoading(shown, expo, refLoads, loads, next, tree, events, kinds, tag);
      StopMain(tag, props.main.source.key);
      ghost var stopped := loads;
      Request(tag, Main, props.memory, begins, alive);
      NoSecondSince(old(loads), old(next), stopped, old(next), loads, next);
    }

    /** The view's source and its resized decode, cancelled, before the source is asked for again. */
    method StopMain(tag: Tag, key: Key)
      requires tag in expo && Books(shown, expo, refLoads, loads, next, 0, {}) && Told() && expo[tag].main.loading != 0
      modifies this`expo, this`loads
      ensures Books(shown, expo, refLoads, loads, next, 0, {}) && Told()
      ensures expo == old(expo)[tag := WithKey(Stopped(Stopped(old(expo)[tag], Resized), Main), key)]
      ensures NoSecond(old(loads), next, loads, next)
    {
      hide Books, Known, ImagesTold, ExposTold;
      Cancel(tag, Resized, 0);
      Cancel(tag, Main, 0);
      var e := WithKey(expo[tag], key);
      KeyBooks(shown, expo, refLoads, loads, next, tag, key);
      WaitTold(shown, old(expo), tree, events, kinds, listens, broken, tag, e);
      expo := expo[tag := e];
      assert expo == old(expo)[tag := e];
    }

    /** The source shown is decoded at the new size, silently. */
    method Redecode(tag: Tag, props: ExpoProps, begins: bool, alive: bool)
      requires tag in expo && Books(shown, expo, refLoads, loads, next, 0, {}) && Told() && HearsExpo(tree, tag)
      requires props.main.BestMain? && expo[tag].main.loading == 0
      modifies this`expo, this`loads, this`next, this`events
      ensures Books(shown, expo, refLoads, loads, next, 0, {}) && Told() && SaidTo(old(events), events, tag)
      ensures tag in expo && expo == old(expo)[tag := expo[tag]]
      ensures Redecoded(old(expo)[tag], expo[tag], props.main.source.key)
      ensures begins && !AtHand(props, alive) ==> expo[tag].resized.loading != 0
      ensures TraceOf(events, tag) == TraceOf(old(events), tag)
      ensures NoSecond(old(loads), old(next), loads, next)
    {
      hide Books, Known, ImagesTold, ExposTold, NoSecond, ExpoPhase;
      Cancel(tag, Resized, 0);
      var resized := ImageBooks.Request(MainIdentity(props.main), props.main.source.key, 0);
      SizeBooks(shown, expo, refLoads, loads, next, tag, resized);
      WaitTold(shown, old(expo), tree, events, kinds, listens, broken, tag, expo[tag].(resized := resized));
      expo := expo[tag := expo[tag].(resized := resized)];
      assert expo == old(expo)[tag := expo[tag]];
      ghost var stopped := loads;
      Request(tag, Resized, props.memory, begins, alive);
      NoSecondSince(old(loads), old(next), stopped, old(next), loads, next);
    }

    /** syncExpo: a view brought to what its props ask for, at its size. */
    method SyncExpo(tag: Tag, props: ExpoProps, begins: Which -> bool, alive: Which -> bool)
      requires Valid() && tag in tree && tree[tag].ExpoView?
      modifies this`expo, this`loads, this`next, this`events
      ensures Valid() && SaidTo(old(events), events, tag) && tag in expo && expo == old(expo)[tag := expo[tag]]
      ensures var e := if tag in old(expo) then old(expo)[tag] else NEW_EXPO;
              var now, said := expo[tag], TraceOf(old(events), tag);
              if e.locked && !e.reload then now == e && events == old(events) && loads == old(loads)
              else if props.empty || (props.main.NoMain? && props.placeholder.None?)
              then now == Cleared(e) && events == old(events)
              else if AsksAnew(e, props)
              then ShownAnew(e, now, props) && TraceOf(events, tag) == said + [LoadStart] +
                     if now.told then Outcome(false, Main, AtHand(props, alive(Main))) else []
              else KeptOrResized(e, now, props) &&
                   TraceOf(events, tag) == said +
                     if now.told && !e.told then Outcome(false, Main, AtHand(props, alive(Main))) else []
      // A picture that is not at hand, and can be asked for where it has to be, is waited for.
      ensures var e := if tag in old(expo) then old(expo)[tag] else NEW_EXPO;
              var asks := Brings(e, props) && props.main.BestMain? && (AsksAnew(e, props) || !SizedAlike(e, props));
              asks && begins(Main) && !AtHand(props, alive(Main)) ==> !AtRest(expo[tag])
      ensures NoSecond(old(loads), old(next), loads, next)
    {
      hide Books, Known, ImagesTold, ExposTold, RefsOnce, NoSecond, ExpoPhase, ShownAnew, ShownResized, Outcome,
        SizedAlike;
      Unmoved();
      if tag !in expo {
        RestBooks(shown, expo, refLoads, loads, next, tag, NEW_EXPO);
        RestTold(shown, expo, tree, events, kinds, listens, broken, tag, NEW_EXPO);
        expo := expo[tag := NEW_EXPO];
      }
      if expo[tag].locked && !expo[tag].reload { return; }
      if props.empty || (props.main.NoMain? && props.placeholder.None?) {
        ClearExpo(tag);
      } else if AsksAnew(expo[tag], props) {
        ShowAnew(tag, props, begins, alive);
      } else {
        Resize(tag, props, begins(Main), alive(Main));
      }
    }

    // answered: a load's picture, or its error, to everyone who waits for it.

    /** An Image view told of the load it waited for. */
    method AnswerImage(tag: Tag, answer: Option<Picture>, ghost gone: Id)
      requires Books(shown, expo, refLoads, loads, next, gone, {}) && Told() && gone != 0
      requires tag in shown && shown[tag].loading == gone
      modifies this`shown, this`drawn, this`events
      ensures Books(shown, expo, refLoads, loads, next, gone, {}) && Told()
      ensures shown == old(shown)[tag := old(shown)[tag].(loading := 0, told := true)]
      ensures SaidTo(old(events), events, tag)
      ensures TraceOf(events, tag) == TraceOf(old(events), tag) +
                if Heard(tag) then SyncSays(true, old(shown)[tag].told, false, answer.Some?) else []
      ensures DrawnBy(drawn, tag) == DrawsAfter(DrawnBy(old(drawn), tag), old(shown)[tag].told, tag in tree, answer)
      ensures forall t :: t != tag ==> DrawnBy(drawn, t) == DrawnBy(old(drawn), t)
    {
      hide Books, Known, ImagesTold, ExposTold;
      ghost var was, told := shown, shown[tag].told;
      ghost var last := shown[tag].(loading := 0, told := true);
      ShownAnsweredBooks(shown, expo, refLoads, loads, next, gone, tag, last);
      shown := shown[tag := shown[tag].(loading := 0)];
      match answer {
        case Some(picture) => Loaded(tag, picture);
        case None => Failed(tag);
      }
      assert shown == was[tag := last];
      assert events == SyncTells(old(events), Heard(tag), tag, true, told, false, answer.Some?);
      SyncedBy(was, last, old(events), tag, SourceOf(last), Heard(tag), answer.Some?);
      AnsweredHeard(was, shown, expo, tree, old(events), events, kinds, listens, broken, tag, answer.Some?);
    }

    /** One of a view's requests told of a load, if it waited for it. */
    method AnswerPart(tag: Tag, w: Which, picture: bool, gone: Id)
      requires tag in expo && Books(shown, expo, refLoads, loads, next, gone, {}) && Told() && gone != 0
      modifies this`expo, this`loads, this`events
      ensures Books(shown, expo, refLoads, loads, next, gone, {}) && Told()
      ensures expo == old(expo)[tag := PartAnswered(old(expo)[tag], w, gone, tag in tree, picture)]
      ensures SaidTo(old(events), events, tag)
      ensures TraceOf(events, tag) ==
        TraceOf(old(events), tag) + PartHears(old(expo)[tag], w, gone, tag in tree, picture)
      ensures NoSecond(old(loads), next, loads, next)
    {
      hide Books, Known, ImagesTold, ExposTold, NoSecond, ExpoPhase, Given, Refused;
      UnmovedBut(gone);
      if Part(expo[tag], w).loading != gone { return; }
      AwaitingExpo(shown, expo, refLoads, loads, next, gone, tree, events, kinds, tag);
      if picture { ExpoLoaded(tag, w, gone); } else { ExpoFailed(tag, w, gone); }
    }

    lemma UnmovedBut(gone: Id)
      requires Books(shown, expo, refLoads, loads, next, gone, {})
      ensures NoSecond(loads, next, loads, next)
    {
    }

    method AnswerImages(answer: Option<Picture>, gone: Id)
      requires Books(shown, expo, refLoads, loads, next, gone, {}) && Told() && gone != 0
      modifies this`shown, this`drawn, this`events
      ensures Books(shown, expo, refLoads, loads, next, gone, {}) && Told()
      ensures ImagesAnswered(old(shown), old(events), shown, events, {}, gone, tree, listens, answer.Some?)
      ensures ImagesDrawn(old(shown), old(drawn), drawn, {}, gone, tree, answer)
    {
      hide Books, Told, ImagePhase, SyncSays, ImagesDrawn, DrawnBy, DrawsAfter;
      var left := shown.Keys;
      ImagesUnanswered(shown, events, gone, tree, listens, answer.Some?);
      ImagesUndrawn(shown, drawn, gone, tree, answer);
      while left != {}
        invariant left <= shown.Keys
        invariant Books(shown, expo, refLoads, loads, next, gone, {}) && Told()
        invariant ImagesAnswered(old(shown), old(events), shown, events, left, gone, tree, listens, answer.Some?)
        invariant ImagesDrawn(old(shown), old(drawn), drawn, left, gone, tree, answer)
      {
        Inhabited(left);
        var tag :| tag in left;
        ghost var was, before, drew := shown, events, drawn;
        assert shown[tag] == old(shown)[tag];
        if shown[tag].loading == gone { AnswerImage(tag, answer, gone); }
        ImageAnswered(old(shown), old(events), was, before, shown, events, left, gone, tree, listens, answer.Some?,
          tag);
        ImageDrawn(old(shown), old(drawn), was, drew, drawn, left, gone, tree, answer, tag);
        left := left - {tag};
      }
    }

    /** A view's source told, then its placeholder, then its resized decode. */
    method AnswerExpo(tag: Tag, picture: bool, gone: Id)
      requires tag in expo && Books(shown, expo, refLoads, loads, next, gone, {}) && Told() && gone != 0
      modifies this`expo, this`loads, this`events
      ensures Books(shown, expo, refLoads, loads, next, gone, {}) && Told()
      ensures expo == old(expo)[tag := ExpoAnswered(old(expo)[tag], gone, tag in tree, picture)]
      ensures SaidTo(old(events), events, tag)
      ensures TraceOf(events, tag) == TraceOf(old(events), tag) + ExpoHears(old(expo), gone, tag, tag in tree, picture)
      ensures NoSecond(old(loads), next, loads, next)
    {
      hide Books, Told, NoSecond, PartAnswered;
      AnswerPart(tag, Main, picture, gone);
      ghost var first := loads;
      AnswerPart(tag, Placeholder, picture, gone);
      NoSecondSince(old(loads), next, first, next, loads, next);
      ghost var second := loads;
      AnswerPart(tag, Resized, picture, gone);
      NoSecondSince(old(loads), next, second, next, loads, next);
    }

    method AnswerExpos(picture: bool, gone: Id)
      requires Books(shown, expo, refLoads, loads, next, gone, {}) && Told() && gone != 0
      modifies this`expo, this`loads, this`events
      ensures Books(shown, expo, refLoads, loads, next, gone, {}) && Told()
      ensures ExposAnswered(old(expo), old(events), expo, events, {}, gone, tree, picture)
      ensures NoSecond(old(loads), next, loads, next)
    {
      hide Books, Told, ExposAnswered, ExpoPhase, ExpoAnswered, ExpoHears, NoSecond;
      UnmovedBut(gone);
      var left := expo.Keys;
      ExposUnanswered(expo, events, gone, tree, picture);
      while left != {}
        invariant left <= expo.Keys
        invariant Books(shown, expo, refLoads, loads, next, gone, {}) && Told()
        invariant ExposAnswered(old(expo), old(events), expo, events, left, gone, tree, picture)
        invariant NoSecond(old(loads), next, loads, next)
      {
        Inhabited(left);
        var tag :| tag in left;
        ghost var was, before, were := expo, events, loads;
        AnswerExpo(tag, picture, gone);
        NoSecondSince(old(loads), next, were, next, loads, next);
        OneExpoAnswered(old(expo), old(events), was, before, expo, events, left, gone, tree, picture, tag);
        left := left - {tag};
      }
    }

    /** The ImageRef that waited for a load: held, or told its error; told nothing once released. */
    method AnswerRef(id: Id, answer: Option<Picture>)
      requires RefsOnce(refLoads, settled, refs, nextRef)
      modifies this`refs, this`refLoads, this`settled
      ensures RefsOnce(refLoads, settled, refs, nextRef) && refLoads == old(refLoads) - {id}
      ensures RefAnswered(old(refLoads), old(refs), refs, old(settled), settled, id, answer)
    {
      if id !in refLoads {
        assert refLoads - {id} == refLoads;
        return;
      }
      var ref := refLoads[id];
      refLoads := refLoads - {id};
      if ref !in refs { return; }
      settled := settled[ref := answer];
      match answer {
        case None => refs := refs - {ref};
        case Some(_) => refs := refs[ref := answer];
      }
    }

    /** The views that wait for a load just answered, told of it. */
    method TellViews(answer: Option<Picture>, gone: Id)
      requires Books(shown, expo, refLoads, loads, next, gone, {}) && Told() && gone != 0
      modifies this`shown, this`drawn, this`expo, this`loads, this`events
      ensures Books(shown, expo, refLoads, loads, next, gone, {}) && Told()
      ensures AllTold(old(shown), shown, old(expo), expo, gone, tree, answer.Some?)
      ensures ImagesToldOf(old(shown), old(expo), old(events), events, gone, tree, listens, answer.Some?)
      ensures ImagesDrawn(old(shown), old(drawn), drawn, {}, gone, tree, answer)
      ensures NoSecond(old(loads), next, loads, next)
    {
      hide Books, Told, NoSecond, ImagesDrawn, ImagesAnswered, ExposAnswered, AllTold, ImagesToldOf;
      AnswerImages(answer, gone);
      ghost var between := events;
      AnswerExpos(answer.Some?, gone);
      NobodyAwaits(old(shown), shown, old(expo), expo, old(events), between, events, gone, tree, listens, answer.Some?);
      ToldOfBoth(old(shown), shown, old(expo), expo, old(events), between, events, gone, tree, listens, answer.Some?);
    }

    /** answered: a cancelled load's reaches no one; another's everyone who waits for it. */
    method Answered(id: Id, answer: Option<Picture>)
      requires Valid()
      modifies this`shown, this`drawn, this`expo, this`loads, this`events, this`refs, this`refLoads, this`settled,
        this`pictures
      ensures Valid() && id !in loads && NoSecond(old(loads), next, loads, next)
      ensures id !in old(loads) ==>
        shown == old(shown) && drawn == old(drawn) && expo == old(expo) && loads == old(loads) &&
          events == old(events) &&
        refs == old(refs) && refLoads == old(refLoads) && settled == old(settled) && pictures == old(pictures)
      ensures id in old(loads) ==>
        AllTold(old(shown), shown, old(expo), expo, id, tree, answer.Some?) &&
        ImagesToldOf(old(shown), old(expo), old(events), events, id, tree, listens, answer.Some?) &&
        ImagesDrawn(old(shown), old(drawn), drawn, {}, id, tree, answer) && refLoads == old(refLoads) - {id} &&
        pictures == if answer.Some? && old(loads)[id].memory then old(pictures)[old(loads)[id].key := answer.value]
          else old(pictures)
      ensures id in old(loads) ==> RefAnswered(old(refLoads), old(refs), refs, old(settled), settled, id, answer)
    {
      hide Books, Known, ImagesTold, ExposTold, RefsOnce, NoSecond, ImagesDrawn, AllTold, ImagesToldOf, RefAnswered;
      Unmoved();
      if id !in loads { return; }
      TakeOff(id, answer);
      ghost var began := loads;
      TellViews(answer, id);
      NoSecondSince(old(loads), next, began, next, loads, next);
      StillGone(shown, expo, refLoads, loads, next, id);
      ToldAllBooks(old(shown), shown, old(expo), expo, refLoads, loads, next, id, tree, answer.Some?);
      AnswerRef(id, answer);
    }

    /** An answered load leaves the books; the cache gains its picture if it may. */
    method TakeOff(id: Id, answer: Option<Picture>)
      requires Books(shown, expo, refLoads, loads, next, 0, {}) && id in loads
      modifies this`loads, this`pictures
      ensures Books(shown, expo, refLoads, loads, next, id, {}) && id != 0 && NoSecond(old(loads), next, loads, next)
      ensures pictures ==
        if answer.Some? && old(loads)[id].memory then old(pictures)[old(loads)[id].key := answer.value]
        else old(pictures)
    {
      var load := loads[id];
      GoneBooks(shown, expo, refLoads, loads, next, id);
      loads := loads - {id};
      FewerSince(old(loads), loads, next);
      if answer.Some? && load.memory { pictures := pictures[load.key := answer.value]; }
    }

    /** progressed: what arrived, told to the views that wait for it and were told no result of their source. */
    method Progressed(id: Id, total: nat)
      requires Valid() && id in loads
      modifies this`events
      ensures Valid() && ProgressToldOf(shown, expo, old(events), events, id, total, tree, listens)
    {
      hide Books, Known, ImagesTold, ExposTold, RefsOnce, ExpoProgressed, ImageProgressed, ProgressToldOf;
      BooksRange(shown, expo, refLoads, loads, next, 0, {});
      ProgressExpos(id, total);
      ghost var between := events;
      ProgressImages(id);
      ProgressBoth(shown, expo, old(events), between, events, id, total, tree, listens);
    }

    method ProgressExpos(id: Id, total: nat)
      requires Books(shown, expo, refLoads, loads, next, 0, {}) && Told() && id != 0
      modifies this`events
      ensures Told() && ExpoProgressed(expo, old(events), events, {}, id, total, tree)
    {
      hide Books, Known, ImagesTold, ExposTold, ExpoProgressed;
      var left := expo.Keys;
      ExpoUnprogressed(expo, events, id, total, tree);
      while left != {}
        invariant left <= expo.Keys && Told() && ExpoProgressed(expo, old(events), events, left, id, total, tree)
      {
        Inhabited(left);
        var tag :| tag in left;
        ghost var before := events;
        if expo[tag].main.loading == id && !expo[tag].told && total != 0 && tag in tree {
          ExpoProgressTold(shown, expo, tree, events, kinds, listens, broken, tag);
          events := Said(events, tag, [Progress]);
        }
        OneExpoProgressed(expo, old(events), before, events, left, id, total, tree, tag);
        left := left - {tag};
      }
    }

    method ProgressImages(id: Id)
      requires Told() && id != 0
      modifies this`events
      ensures Told() && ImageProgressed(shown, old(events), events, {}, id, tree, listens)
    {
      hide Known, ImagesTold, ExposTold, ImageProgressed;
      var left := shown.Keys;
      ImageUnprogressed(shown, events, id, tree, listens);
      while left != {}
        invariant left <= shown.Keys && Told() && ImageProgressed(shown, old(events), events, left, id, tree, listens)
      {
        Inhabited(left);
        var tag :| tag in left;
        ghost var before := events;
        if shown[tag].loading == id && !shown[tag].told && tag in tree && tree[tag].ImageView? && listens(tag) {
          ImageProgressTold(shown, expo, tree, events, kinds, listens, broken, tag);
          events := Said(events, tag, [Progress]);
        }
        OneImageProgressed(shown, old(events), before, events, left, id, tree, listens, tag);
        left := left - {tag};
      }
    }

    // sync: every view brought to what it asks for.

    /** An expo-image view gone stops what it waits for. */
    method ForgetExpo(tag: Tag)
      requires Valid() && tag in expo
      modifies this`expo, this`loads
      ensures Valid() && expo == old(expo) - {tag} && NoSecond(old(loads), next, loads, next)
    {
      hide Books, Known, ImagesTold, ExposTold, RefsOnce, NoSecond;
      var e := expo[tag];
      ghost var a, b, c := e.main.loading, e.placeholder.loading, e.resized.loading;
      expo := expo - {tag};
      ExpoBooks(shown, old(expo), expo, refLoads, loads, next, 0, {}, {a, b, c}, tag);
      ReleaseOne(e.main.loading, {a, b, c});
      ghost var first := loads;
      ReleaseOne(e.placeholder.loading, {a, b, c} - {a});
      NoSecondSince(old(loads), next, first, next, loads, next);
      ghost var second := loads;
      ReleaseOne(e.resized.loading, {a, b, c} - {a} - {b});
      NoSecondSince(old(loads), next, second, next, loads, next);
      assert {a, b, c} - {a} - {b} - {c} == {};
      OneExpoTold(shown, old(expo), expo, tree, events, events, kinds, listens, broken, tag);
    }

    method ReleaseOne(id: Id, ghost spare: set<Id>)
      requires Books(shown, expo, refLoads, loads, next, 0, spare)
      modifies this`loads
      ensures Books(shown, expo, refLoads, loads, next, 0, spare - {id}) && NoSecond(old(loads), next, loads, next)
    {
      BooksRange(shown, expo, refLoads, loads, next, 0, spare);
      hide Books;
      Release(id);
      ReleasedBooks(shown, expo, refLoads, old(loads), next, 0, spare, id);
    }

    /** What is kept of views gone, or now of another kind, is kept no more. */
    method DropGone()
      requires Valid()
      modifies this`shown, this`expo, this`loads
      ensures Valid() && NoSecond(old(loads), next, loads, next)
      ensures forall tag :: tag in shown ==> tag in tree && tree[tag].ImageView?
      ensures forall tag :: tag in expo ==> tag in tree && tree[tag].ExpoView?
      ensures forall tag :: SlotOf(tag) == Left(tag, old(SlotOf(tag)))
    {
      hide Books, Known, ImagesTold, ExposTold, RefsOnce, NoSecond;
      GoneExpos();
      ghost var between := loads;
      GoneImages();
      NoSecondSince(old(loads), next, between, next, loads, next);
    }

    method GoneExpos()
      requires Valid()
      modifies this`expo, this`loads
      ensures Valid() && NoSecond(old(loads), next, loads, next)
      ensures forall tag :: tag in expo <==> tag in old(expo) && tag in tree && tree[tag].ExpoView?
      ensures forall tag :: tag in expo ==> expo[tag] == old(expo)[tag]
    {
      hide Books, Known, ImagesTold, ExposTold, RefsOnce, NoSecond;
      Unmoved();
      var left := expo.Keys;
      while left != {}
        invariant Valid() && left <= expo.Keys <= old(expo).Keys && NoSecond(old(loads), next, loads, next)
        invariant forall tag :: tag in expo ==> expo[tag] == old(expo)[tag]
        invariant forall tag :: tag in expo && tag !in left ==> tag in tree && tree[tag].ExpoView?
        invariant forall tag :: tag in old(expo) && tag in tree && tree[tag].ExpoView? ==> tag in expo
      {
        Inhabited(left);
        var tag :| tag in left;
        ghost var before := loads;
        if tag !in tree || !tree[tag].ExpoView? {
          ForgetExpo(tag);
          NoSecondSince(old(loads), next, before, next, loads, next);
        }
        left := left - {tag};
      }
    }

    /** Afterwards only Image views of the tree are kept track of, and those as they were. */
    method GoneImages()
      requires Valid()
      modifies this`shown, this`loads
      ensures Valid() && NoSecond(old(loads), next, loads, next)
      ensures forall tag :: tag in shown <==> tag in old(shown) && tag in tree && tree[tag].ImageView?
      ensures forall tag :: tag in shown ==> shown[tag] == old(shown)[tag]
    {
      hide Books, Known, ImagesTold, ExposTold, RefsOnce, NoSecond;
      Unmoved();
      var left := shown.Keys;
      while left != {}
        invariant Valid() && left <= shown.Keys <= old(shown).Keys && NoSecond(old(loads), next, loads, next)
        invariant forall tag :: tag in shown ==> shown[tag] == old(shown)[tag]
        invariant forall tag :: tag in shown && tag !in left ==> tag in tree && tree[tag].ImageView?
        invariant forall tag :: tag in old(shown) && tag in tree && tree[tag].ImageView? ==> tag in shown
      {
        Inhabited(left);
        var tag :| tag in left;
        ghost var before := loads;
        if tag !in tree || !tree[tag].ImageView? {
          BooksRange(shown, expo, refLoads, loads, next, 0, {});
          Forget(tag);
          FewerSince(before, loads, next);
          NoSecondSince(old(loads), next, before, next, loads, next);
        }
        left := left - {tag};
      }
    }

    function SlotOf(tag: Tag): Slot
      reads this`shown, this`expo, this`events, this`drawn
    {
      SlotIn(tag, shown, expo, events, drawn)
    }

    /** A view as a sync leaves it: without a source it shows, hears and draws nothing more. */
    predicate ViewSynced(tag: Tag, was: Slot, now: Slot, begins: bool, alive: bool)
      requires tag in tree
      reads this`tree, this`refs, this`pictures
    {
      match tree[tag]
      case ImageView(None) =>
        now == was.(shown := None, drawn := if was.shown.Some? then None else was.drawn)
      case ImageView(Some(source)) =>
        SourceSynced(was, now, source, broken(source.uri),
                     if alive && source.key in pictures then Some(pictures[source.key]) else None, begins, Heard(tag))
      case ExpoView(props) => ExpoSynced(was, now, props, AtHand(props, alive))
      case OtherView => now == was
    }

    /** What a sync begins with: nothing kept of views gone or of another kind. */
    function Left(tag: Tag, was: Slot): Slot
      reads this`tree
    {
      was.(shown := if tag in tree && tree[tag].ImageView? then was.shown else None,
           expo := if tag in tree && tree[tag].ExpoView? then was.expo else None)
    }

    /** An Image view of no source. */
    method SyncNone(tag: Tag)
      requires Valid() && tag in tree && tree[tag] == ImageView(None)
      modifies this`shown, this`drawn, this`loads
      ensures Valid() && NoSecond(old(loads), next, loads, next) && shown == old(shown) - {tag}
      ensures ViewSynced(tag, old(SlotOf(tag)), SlotOf(tag), false, false)
      ensures forall t :: t != tag ==> SlotOf(t) == old(SlotOf(t))
    {
      hide Books, Known, ImagesTold, ExposTold, RefsOnce, NoSecond;
      BooksRange(shown, expo, refLoads, loads, next, 0, {});
      if tag in shown { drawn := drawn - {tag}; }
      Forget(tag);
      FewerSince(old(loads), loads, next);
    }

    /** An Image view of a source. */
    method SyncSource(tag: Tag, source: Source, begins: bool, alive: bool)
      requires Valid() && tag in tree && tree[tag] == ImageView(Some(source))
      modifies this`shown, this`drawn, this`loads, this`next, this`events
      ensures Valid() && NoSecond(old(loads), old(next), loads, next) && shown - {tag} == old(shown) - {tag}
      ensures ViewSynced(tag, old(SlotOf(tag)), SlotOf(tag), begins, alive) && ViewBrought(tree[tag], tag, shown, expo)
      ensures forall t :: t != tag ==> SlotOf(t) == old(SlotOf(t))
    {
      hide Books, Known, ImagesTold, ExposTold, RefsOnce, NoSecond, SourceSynced, SyncSays;
      SyncImage(tag, source, begins, alive);
      OneShown(tag, source, old(shown), shown, old(events), events, old(drawn), drawn, expo, broken(source.uri),
        if alive && source.key in pictures then Some(pictures[source.key]) else None, begins, Heard(tag));
    }

    /** An expo-image view. */
    method SyncExpoView(tag: Tag, props: ExpoProps, begins: Which -> bool, alive: Which -> bool)
      requires Valid() && tag in tree && tree[tag] == ExpoView(props)
      modifies this`expo, this`loads, this`next, this`events
      ensures Valid() && NoSecond(old(loads), old(next), loads, next) && expo - {tag} == old(expo) - {tag}
      ensures ViewSynced(tag, old(SlotOf(tag)), SlotOf(tag), begins(Main), alive(Main)) &&
        ViewBrought(tree[tag], tag, shown, expo)
      ensures forall t :: t != tag ==> SlotOf(t) == old(SlotOf(t))
    {
      hide Books, Known, ImagesTold, ExposTold, RefsOnce, NoSecond, ExpoSynced, ExpoBrought, AtHand, KeptOrResized,
        ShownAnew, Outcome, Cleared, AsksAnew, SizedAlike, Brings;
      SyncExpo(tag, props, begins, alive);
      OneExpo(tag, shown, old(expo), expo, old(events), events, drawn, props, AtHand(props, alive(Main)));
    }

    /** A view brought to what it asks for. */
    method SyncView(tag: Tag, begins: Which -> bool, alive: Which -> bool)
      requires Valid() && tag in tree
      modifies this`shown, this`drawn, this`expo, this`loads, this`next, this`events
      ensures Valid() && NoSecond(old(loads), old(next), loads, next)
      ensures ViewBrought(tree[tag], tag, shown, expo)
      ensures shown - {tag} == old(shown) - {tag} && expo - {tag} == old(expo) - {tag}
      ensures !tree[tag].ExpoView? ==> expo == old(expo)
      ensures !tree[tag].ImageView? ==> shown == old(shown)
      ensures ViewSynced(tag, old(SlotOf(tag)), SlotOf(tag), begins(Main), alive(Main))
      ensures forall t :: t != tag ==> SlotOf(t) == old(SlotOf(t))
    {
      hide Books, Known, ImagesTold, ExposTold, RefsOnce, NoSecond;
      hide SourceSynced, ExpoSynced, ExpoBrought, AtHand, SlotIn;
      Unmoved();
      match tree[tag] {
        case ExpoView(props) => SyncExpoView(tag, props, begins, alive);
        case ImageView(None) => SyncNone(tag);
        case ImageView(Some(source)) => SyncSource(tag, source, begins(Main), alive(Main));
        case OtherView =>
      }
    }

    /** sync: what every view asks for asked for once, and nothing waited for that nobody asks for. */
    method Sync(begins: (Tag, Which) -> bool, alive: (Tag, Which) -> bool)
      requires Valid()
      modifies this`shown, this`drawn, this`expo, this`loads, this`next, this`events
      ensures Valid() && NoSecond(old(loads), old(next), loads, next)
      ensures AllBrought(tree, {}, shown, expo)
      // Each view of the tree is brought to what it asks for from what it was, and all else is as it was.
      ensures forall tag :: tag in tree ==>
        ViewSynced(tag, Left(tag, old(SlotOf(tag))), SlotOf(tag), begins(tag, Main), alive(tag, Main))
      ensures forall tag :: tag !in tree ==> SlotOf(tag) == Left(tag, old(SlotOf(tag)))
    {
      hide Books, Known, ImagesTold, ExposTold, RefsOnce, NoSecond, AllBrought, ViewBrought, SlotOf, Left, ViewSynced;
      DropGone();
      var left := tree.Keys;
      NoneBrought(tree, shown, expo);
      while left != {}
        invariant Valid() && left <= tree.Keys && NoSecond(old(loads), old(next), loads, next)
        invariant AllBrought(tree, left, shown, expo)
        invariant forall tag :: tag !in tree || tag in left ==> SlotOf(tag) == Left(tag, old(SlotOf(tag)))
        invariant forall tag :: tag in tree && tag !in left ==>
          ViewSynced(tag, Left(tag, old(SlotOf(tag))), SlotOf(tag), begins(tag, Main), alive(tag, Main))
      {
        Inhabited(left);
        var tag :| tag in left;
        ghost var was, waits, before, from := shown, expo, loads, next;
        SyncView(tag, w => begins(tag, w), w => alive(tag, w));
        NoSecondSince(old(loads), old(next), before, from, loads, next);
        OneBrought(tree, left, was, waits, shown, expo, tag);
        left := left - {tag};
      }
    }

    // What else happens to the host's pictures.

    constructor (hears: Tag -> bool, unreadable: int -> bool)
      ensures Valid() && listens == hears && broken == unreadable && tree == map[] && loads == map[]
      ensures kinds == map[] && expo == map[] && pictures == map[]
    {
      listens, broken := hears, unreadable;
      tree, drawn, events, shown, expo := map[], map[], map[], map[], map[];
      loads, next, pictures, refs, refLoads, nextRef, settled := map[], 0, map[], map[], map[], 0, map[];
      kinds := map[];
    }

    /** The tree as React commits it: a tag is one view's for its life. */
    method Commit(now: map<Tag, View>)
      requires Valid()
      requires forall tag :: tag in now ==> if tag in tree then KindOf(now[tag]) == KindOf(tree[tag]) else tag !in kinds
      modifies this`tree, this`drawn, this`kinds
      ensures Valid() && tree == now
      ensures forall tag :: tag in old(kinds) ==> tag in kinds && kinds[tag] == old(kinds)[tag]
      ensures drawn == map tag | tag in old(drawn) && tag in now :: old(drawn)[tag]
    {
      hide Books;
      kinds := kinds + map tag | tag in now :: KindOf(now[tag]);
      tree := now;
      drawn := map tag | tag in drawn && tag in now :: drawn[tag];
      CommittedTold(shown, expo, old(tree), now, events, old(kinds), kinds, listens, broken);
    }

    ghost function Now(): Snapshot
      reads this
    {
      Snapshot(shown, drawn, expo, loads, events, refs, refLoads, settled, pictures)
    }

    /**
     deliver: released refs forgotten, then the answers the decoders have, in their order, each told as `AnsweredBy`
     says of the state the one before it left; then the pictures nobody shows any more are gone.
     */
    method Deliver(released: set<int>, answers: seq<Answer>, kept: Key -> bool) returns (ghost states: seq<Snapshot>)
      requires Valid()
      modifies this`shown, this`drawn, this`expo, this`loads, this`events, this`refs, this`refLoads, this`settled,
        this`pictures
      ensures Valid() && NoSecond(old(loads), next, loads, next)
      ensures forall i :: 0 <= i < |answers| && answers[i].Finished? ==> answers[i].id !in loads
      ensures |states| == |answers| + 1 && states[0] == old(Now()).(refs := old(refs) - released)
      ensures forall i :: 0 <= i < |answers| ==> AnsweredBy(states[i], states[i + 1], answers[i], tree, listens)
      ensures var last := states[|answers|];
              Now() == last.(pictures := map key | key in last.pictures && kept(key) :: last.pictures[key])
    {
      hide Books, Known, ImagesTold, ExposTold, RefsOnce, NoSecond, ImagesDrawn, AllTold, ImagesToldOf, RefAnswered,
        ProgressToldOf;
      Unmoved();
      ReleasedOnce(refLoads, settled, refs, nextRef, released);
      refs := refs - released;
      states := [Now()];
      for i := 0 to |answers|
        invariant Valid() && NoSecond(old(loads), next, loads, next)
        invariant forall j :: 0 <= j < i && answers[j].Finished? ==> answers[j].id !in loads
        invariant |states| == i + 1 && states[i] == Now() && states[0] == old(Now()).(refs := old(refs) - released)
        invariant forall j :: 0 <= j < i ==> AnsweredBy(states[j], states[j + 1], answers[j], tree, listens)
      {
        ghost var before := loads;
        BooksRange(shown, expo, refLoads, loads, next, 0, {});
        AnswerNext(answers[i]);
        NoSecondSince(old(loads), next, before, next, loads, next);
        BooksRange(shown, expo, refLoads, loads, next, 0, {});
        NoneBack(before, next, loads);
        states := states + [Now()];
      }
      pictures := map key | key in pictures && kept(key) :: pictures[key];
    }

    /** One answer told, if its load was not cancelled. */
    method AnswerNext(answer: Answer)
      requires Valid()
      modifies this`shown, this`drawn, this`expo, this`loads, this`events, this`refs, this`refLoads, this`settled,
        this`pictures
      ensures Valid() && NoSecond(old(loads), next, loads, next)
      ensures answer.Finished? ==> answer.id !in loads
      ensures AnsweredBy(old(Now()), Now(), answer, tree, listens)
    {
      hide Books, Known, ImagesTold, ExposTold, RefsOnce, NoSecond, ImagesDrawn, AllTold, ImagesToldOf, RefAnswered,
        ProgressToldOf;
      Unmoved();
      if answer.id in loads {
        match answer {
          case Arrived(id, total) => Progressed(id, total);
          case Finished(id, picture) => Answered(id, picture);
        }
      }
    }

    /** lockResourceAsync, unlockResourceAsync */
    method SetLocked(tag: Tag, locked: bool)
      requires Valid()
      modifies this`expo
      ensures Valid()
      ensures expo == old(expo)[tag := (if tag in old(expo) then old(expo)[tag] else NEW_EXPO).(locked := locked)]
    {
      hide Books, Known, ImagesTold, ExposTold, RefsOnce;
      if tag !in expo {
        RestBooks(shown, expo, refLoads, loads, next, tag, NEW_EXPO);
        RestTold(shown, expo, tree, events, kinds, listens, broken, tag, NEW_EXPO);
        expo := expo[tag := NEW_EXPO];
      }
      FlagBooks(shown, expo, refLoads, loads, next, tag, expo[tag].(locked := locked));
      FlagTold(expo, tree, events, kinds, tag, expo[tag].(locked := locked));
      expo := expo[tag := expo[tag].(locked := locked)];
    }

    /** reloadAsync: the view's source asked for anew, locked or not. */
    method Reload(tag: Tag, begins: Which -> bool, alive: Which -> bool)
      requires Valid()
      modifies this`expo, this`loads, this`next, this`events
      ensures Valid() && NoSecond(old(loads), old(next), loads, next) && SaidTo(old(events), events, tag)
      ensures !HearsExpo(tree, tag) ==>
        expo == old(expo) && loads == old(loads) && next == old(next) && events == old(events)
      ensures HearsExpo(tree, tag) && !tree[tag].props.empty &&
              (!tree[tag].props.main.NoMain? || tree[tag].props.placeholder.Some?) ==>
        tag in expo && TraceOf(events, tag) == TraceOf(old(events), tag) + [LoadStart] +
          if expo[tag].told then Outcome(false, Main, AtHand(tree[tag].props, alive(Main))) else []
    {
      hide Books, Known, ImagesTold, ExposTold, RefsOnce, NoSecond, ShownAnew, Outcome, ExpoPhase;
      Unmoved();
      if tag !in tree || !tree[tag].ExpoView? { return; }
      if tag !in expo {
        RestBooks(shown, expo, refLoads, loads, next, tag, NEW_EXPO);
        RestTold(shown, expo, tree, events, kinds, listens, broken, tag, NEW_EXPO);
        expo := expo[tag := NEW_EXPO];
      }
      FlagBooks(shown, expo, refLoads, loads, next, tag, expo[tag].(reload := true));
      FlagTold(expo, tree, events, kinds, tag, expo[tag].(reload := true));
      expo := expo[tag := expo[tag].(reload := true)];
      SyncExpo(tag, tree[tag].props, begins, alive);
    }

    /** loadAsync: an ImageRef that waits for a load of its own, or is told at once that it cannot start. */
    method LoadRef(key: Key, begins: bool) returns (ref: int)
      requires Valid()
      modifies this`loads, this`next, this`refs, this`refLoads, this`nextRef, this`settled
      ensures Valid() && next == old(next) + 1 && nextRef == old(nextRef) + 1 == ref && ref !in old(settled)
      ensures if begins
              then loads == old(loads)[next := Fetch(key, true)] && refLoads == old(refLoads)[next := ref] &&
                   refs == old(refs)[ref := None] && settled == old(settled)
              else loads == old(loads) && refLoads == old(refLoads) && refs == old(refs) &&
                   settled == old(settled)[ref := None]
    {
      hide Books, Known, ImagesTold, ExposTold, RefsOnce;
      RefBooks(shown, expo, refLoads, loads, next, Fetch(key, true), nextRef + 1);
      RefBegun(refLoads, settled, refs, nextRef, next + 1);
      NewRef(shown, expo, refLoads, loads, next, settled, refs, nextRef);
      next, nextRef := next + 1, nextRef + 1;
      ref := nextRef;
      refs, refLoads, loads := refs[ref := None], refLoads[next := ref], loads[next := Fetch(key, true)];
      if !begins {
        loads, refLoads, refs := loads - {next}, refLoads - {next}, refs - {ref};
        TakenBack(old(loads), next, Fetch(key, true));
        TakenBack(old(refLoads), next, ref);
        TakenBack(old(refs), ref, None);
        settled := settled[ref := None];
      }
    }

    /** Whether a load on its way is one nobody is left to be told of. */
    predicate Orphaned(id: Id)
      reads this`shown, this`expo, this`loads, this`refs, this`refLoads
    {
      id in loads && !ViewsWait(shown, expo, id) && !(id in refLoads && refLoads[id] in refs)
    }

    /** A load goes on for nobody exactly when it is that of an ImageRef released since, and no view shares it. */
    lemma OrphanedExactly(id: Id)
      requires Valid()
      ensures Orphaned(id) <==> id in refLoads && refLoads[id] !in refs && !ViewsWait(shown, expo, id)
    {
      if Orphaned(id) { assert Waits(shown, expo, refLoads, id); }
    }

    /** releaseRef: what it loads is loaded all the same, and nothing is told of it. */
    method ReleaseRef(ref: int)
      requires Valid()
      modifies this`refs
      ensures Valid() && refs == old(refs) - {ref}
      // A load is orphaned by it exactly when it is this ImageRef's, still on its way, and no view waits for it.
      ensures forall id :: Orphaned(id) <==>
        old(Orphaned(id)) || (id in refLoads && refLoads[id] == ref && !ViewsWait(shown, expo, id))
    {
      hide Known, ImagesTold, ExposTold, ViewsWait;
      refs := refs - {ref};
    }

    /** Whatever happened, each source of each view there has been was told as one whole story, or the start of one. */
    lemma EverySourceOnce(tag: Tag)
      requires Valid() && tag in kinds
      ensures kinds[tag].Image? ==> ImageStory(Since(TraceOf(events, tag)))
      ensures kinds[tag].Expo? ==> ExpoStory(Since(TraceOf(events, tag)))
    {
      hide Since;
      if kinds[tag].Image? { ImageStories(TraceOf(events, tag)); }
      if kinds[tag].Expo? { ExpoStories(TraceOf(events, tag)); }
    }

    /** And so was each source before it: what was told between two starts, here that before the one at `n`. */
    lemma EveryEarlierSourceOnce(tag: Tag, n: nat)
      requires Valid() && tag in kinds && n < |TraceOf(events, tag)| && TraceOf(events, tag)[n].LoadStart?
      ensures kinds[tag].Image? ==> ImageStory(Since(TraceOf(events, tag)[..n]))
      ensures kinds[tag].Expo? ==> ExpoStory(Since(TraceOf(events, tag)[..n]))
    {
      hide Since;
      if kinds[tag].Image? { ImageStoryBefore(TraceOf(events, tag), n); }
      if kinds[tag].Expo? { ExpoStoryBefore(TraceOf(events, tag), n); }
    }
  }

  /** An ImageRef asked for and released while it loads: its load is still on its way, and is nobody's. */
  method ReleasedWhileLoading(key: Key) returns (host: Images, load: Id)
    ensures host.Valid() && host.Orphaned(load)
  {
    host := new Images(_ => false, _ => false);
    var ref := host.LoadRef(key, true);
    load := host.next;
    host.OrphanedExactly(load);
    host.ReleaseRef(ref);
  }

  /** An expo-image view of one source, at a size. */
  function Sized(key: Key): ExpoProps { ExpoProps(false, BestMain(ExpoSource(1, key)), None, false, false) }

  /** A view brought to a size, every load begun that has to be, and then told of one if it waits for one. */
  method Brought(host: Images, tag: Tag, key: Key) returns (load: Id)
    requires host.Valid() && (forall t :: t in host.tree ==> t == tag && host.tree[t].ExpoView?)
    requires tag in host.kinds ==> tag in host.tree
    modifies host
    ensures host.Valid() && host.tree == map[tag := ExpoView(Sized(key))] && tag in host.kinds && tag in host.expo
    ensures var e, now := if tag in old(host.expo) then old(host.expo)[tag] else NEW_EXPO, host.expo[tag];
            load == (if now.main.loading != 0 then now.main.loading else now.resized.loading) &&
            (load != 0 ==> load in host.loads) && (now.resized.loading != 0 ==> now.main.loading == 0) &&
            (Brings(e, Sized(key)) ==>
               if AsksAnew(e, Sized(key)) then ShownAnew(e, now, Sized(key)) && !AtRest(now)
               else KeptOrResized(e, now, Sized(key)) && (!SizedAlike(e, Sized(key)) ==> !AtRest(now)))
  {
    host.Commit(map[tag := ExpoView(Sized(key))]);
    host.SyncExpo(tag, Sized(key), _ => true, _ => false);
    var e := host.expo[tag];
    load := if e.main.loading != 0 then e.main.loading else e.resized.loading;
  }

  /** A load it waits for arrives. */
  method Arrives(host: Images, tag: Tag, load: Id, picture: Picture)
    requires host.Valid() && load in host.loads && tag in host.expo && tag in host.tree
    modifies host
    ensures host.Valid() && host.tree == old(host.tree) && host.kinds == old(host.kinds) && tag in host.expo
    ensures host.expo[tag] == ExpoAnswered(old(host.expo)[tag], load, true, true)
  {
    hide Books, Known, ImagesTold, ExposTold, RefsOnce, NoSecond, ImagesDrawn, ImagesToldOf, RefAnswered, ExpoAnswered;
    host.Answered(load, Some(picture));
  }

  lemma ShownFirst(e: ExpoShown, load: Id, key: Key)
    requires ShownAnew(NEW_EXPO, e, Sized(key)) && !AtRest(e)
    requires load == if e.main.loading != 0 then e.main.loading else e.resized.loading
    ensures load != 0
    ensures var now := ExpoAnswered(e, load, true, true);
            AtRest(now) && now.told && now.main == Request(1, key, 0) && now.placeholder == NOTHING && !now.locked &&
            !now.reload
  {
  }

  /** A view shown, and a decode of it begun for another size: asked back, nothing changes, and the decode arrives. */
  lemma EndsBig(e: ExpoShown, now: ExpoShown, load: Id, small: Key, big: Key)
    requires AtRest(e) && e.told && e.main == Request(1, small, 0) && e.placeholder == NOTHING && !e.locked && !e.reload
    requires KeptOrResized(e, now, Sized(big)) && !AtRest(now) && small != big
    requires load == if now.main.loading != 0 then now.main.loading else now.resized.loading
    ensures load != 0 && Brings(now, Sized(small)) && !AsksAnew(now, Sized(small)) && SizedAlike(now, Sized(small))
    ensures var last := ExpoAnswered(now, load, true, true); AtRest(last) && last.told && last.main.key == big
  {
  }

  /** A view shown small, made big, and small again before its decode arrived: it ends at the big one. */
  method BackTooSoon(tag: Tag, small: Key, big: Key) returns (host: Images)
    requires small != big
    ensures host.Valid() && host.tree == map[tag := ExpoView(Sized(small))] && tag in host.expo
    ensures AtRest(host.expo[tag]) && host.expo[tag].told && host.expo[tag].main.key == big
  {
    hide Books, Known, ImagesTold, ExposTold, RefsOnce, KeptOrResized, ShownAnew, ExpoAnswered;
    host := new Images(_ => false, _ => false);
    var first := Brought(host, tag, small);
    ShownFirst(host.expo[tag], first, small);
    Arrives(host, tag, first, 1);
    ghost var e := host.expo[tag];
    var second := Brought(host, tag, big);
    EndsBig(e, host.expo[tag], second, small, big);
    var none := Brought(host, tag, small);
    Arrives(host, tag, second, 2);
  }

  /** What the host keeps that an answer can change. */
  datatype Snapshot = Snapshot(
    shown: map<Tag, Shown>, drawn: map<Tag, Picture>, expo: map<Tag, ExpoShown>, loads: map<Id, Fetch>,
    events: map<Tag, seq<Event>>, refs: map<int, Option<Picture>>, refLoads: map<Id, int>,
    settled: map<int, Option<Picture>>, pictures: map<Key, Picture>)

  /** Who was told what of one answer: nobody of a cancelled load's, else exactly those who waited. */
  ghost predicate AnsweredBy(was: Snapshot, now: Snapshot, a: Answer, tree: map<Tag, View>, listens: Tag -> bool) {
    if a.id !in was.loads then now == was
    else
      match a
      case Arrived(id, total) =>
        now == was.(events := now.events) &&
          ProgressToldOf(was.shown, was.expo, was.events, now.events, id, total, tree, listens)
      case Finished(id, answer) =>
        AllTold(was.shown, now.shown, was.expo, now.expo, id, tree, answer.Some?) &&
        ImagesToldOf(was.shown, was.expo, was.events, now.events, id, tree, listens, answer.Some?) &&
        ImagesDrawn(was.shown, was.drawn, now.drawn, {}, id, tree, answer) && now.refLoads == was.refLoads - {id} &&
        RefAnswered(was.refLoads, was.refs, now.refs, was.settled, now.settled, id, answer) &&
        now.pictures ==
          if answer.Some? && was.loads[id].memory then was.pictures[was.loads[id].key := answer.value] else was.pictures
  }

  datatype Answer = Arrived(id: Id, total: nat) | Finished(id: Id, answer: Option<Picture>)
}
