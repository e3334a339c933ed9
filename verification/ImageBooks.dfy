/**
 Image loads: who waits for which, over the maps of views, expo-image views and ImageRefs, and what each
 view's JavaScript is told of its source. The values, and what each kind of step does to them.
 */
module ImageBooks {
  import opened Optional

  // The books say that whoever waits for a load waits for one on its way, for what it shows, and that every load on its
  // way is waited for; while a step is half done, but for the load just answered (`gone`) and the loads about to be
  // waited for or released (`spare`). The stories say that each view's events are, since its source was last asked for,
  // those of one load: its start, its progress and one outcome.

  type Tag = int
  type Id = nat
  type Key = int
  type Picture = int

  // What views ask for. A URI, an identity and a key are named by numbers; an identity of 0 is nothing.

  /** A source as chosen and resolved for a view's size. */
  datatype Source = Source(uri: int, scale: int, key: Key)

  datatype ExpoSource = ExpoSource(identity: int, key: Key)

  datatype ExpoMain = NoMain | RefMain(ref: int, name: int) | BestMain(source: ExpoSource)

  /** An expo-image view's props at its size: `empty` without an area, `fixed` if a new size is not decoded for. */
  datatype ExpoProps = ExpoProps(empty: bool, main: ExpoMain, placeholder: Option<ExpoSource>, fixed: bool,
    memory: bool)

  function MainIdentity(m: ExpoMain): int {
    match m
    case NoMain => 0
    case RefMain(_, name) => name
    case BestMain(source) => source.identity
  }

  function PlaceholderIdentity(p: ExpoProps): int { if p.placeholder.Some? then p.placeholder.value.identity else 0 }

  datatype View = ImageView(source: Option<Source>) | ExpoView(props: ExpoProps) | OtherView

  datatype Kind = Image | Expo | Other

  function KindOf(v: View): Kind {
    match v
    case ImageView(_) => Image
    case ExpoView(_) => Expo
    case OtherView => Other
  }

  // What is kept of them.

  datatype Shown = Shown(key: Key, uri: int, scale: int, loading: Id, told: bool)

  datatype Request = Request(identity: int, key: Key, loading: Id)

  const NOTHING := Request(0, 0, 0)

  datatype ExpoShown = ExpoShown(main: Request, placeholder: Request, resized: Request, told: bool, locked: bool,
    reload: bool) {
    predicate Awaits(id: Id) { main.loading == id || placeholder.loading == id || resized.loading == id }
  }

  const NEW_EXPO := ExpoShown(NOTHING, NOTHING, NOTHING, false, false, false)

  datatype Which = Main | Placeholder | Resized

  function Part(e: ExpoShown, w: Which): Request {
    match w
    case Main => e.main
    case Placeholder => e.placeholder
    case Resized => e.resized
  }

  function WithPart(e: ExpoShown, w: Which, r: Request): ExpoShown {
    match w
    case Main => e.(main := r)
    case Placeholder => e.(placeholder := r)
    case Resized => e.(resized := r)
  }

  // What JavaScript is told.

  datatype Event = LoadStart | Progress | Display | Load | Error | LoadEnd

  /** Where a view is in its source's story; `Broken` after an event out of its order. */
  datatype Phase = Silent | Loading | Displayed | Resulted | Ended | Broken

  /** React Native's Image: progress while it loads, then load or error, then loadEnd. */
  function ImageStep(p: Phase, e: Event): Phase {
    if e.LoadStart? && !p.Resulted? && !p.Broken? then Loading
    else if p.Loading? && e.Progress? then Loading
    else if p.Loading? && (e.Load? || e.Error?) then Resulted
    else if p.Resulted? && e.LoadEnd? then Ended
    else Broken
  }

  /** expo-image: progress while it loads, then display and load, or error. */
  function ExpoStep(p: Phase, e: Event): Phase {
    if e.LoadStart? && !p.Displayed? && !p.Broken? then Loading
    else if p.Loading? && e.Progress? then Loading
    else if p.Loading? && e.Display? then Displayed
    else if p.Displayed? && e.Load? then Ended
    else if p.Loading? && e.Error? then Ended
    else Broken
  }

  function ImagePhase(trace: seq<Event>): Phase {
    if trace == [] then Silent else ImageStep(ImagePhase(trace[..|trace| - 1]), trace[|trace| - 1])
  }

  function ExpoPhase(trace: seq<Event>): Phase {
    if trace == [] then Silent else ExpoStep(ExpoPhase(trace[..|trace| - 1]), trace[|trace| - 1])
  }

  lemma {:induction false} PhaseMore(trace: seq<Event>, e: Event)
    ensures ImagePhase(trace + [e]) == ImageStep(ImagePhase(trace), e)
    ensures ExpoPhase(trace + [e]) == ExpoStep(ExpoPhase(trace), e)
  {
    assert (trace + [e])[..|trace|] == trace;
  }

  predicate Result(e: Event) { e.Load? || e.Error? }

  /** Where the story last started: the events since the last loadStart. */
  function Since(trace: seq<Event>): seq<Event> {
    if trace == [] || trace[|trace| - 1].LoadStart? then []
    else Since(trace[..|trace| - 1]) + [trace[|trace| - 1]]
  }

  predicate AllProgress(trace: seq<Event>) { forall e :: e in trace ==> e.Progress? }

  /** An Image's events since its source started: progress*, then at most one load or error with its loadEnd. */
  ghost predicate ImageStory(trace: seq<Event>) {
    AllProgress(trace) ||
    exists progress, result :: AllProgress(progress) && Result(result) && trace == progress + [result, LoadEnd]
  }

  /** An expo-image view's: progress*, then at most one display with its load, or error. */
  ghost predicate ExpoStory(trace: seq<Event>) {
    AllProgress(trace) ||
    exists progress :: AllProgress(progress) && (trace == progress + [Display, Load] || trace == progress + [Error])
  }

  /** A trace that breaks nothing tells one story for each start, after every whole step. */
  lemma {:induction false} ImageStories(trace: seq<Event>)
    requires !ImagePhase(trace).Broken?
    ensures ImagePhase(trace).Loading? ==> AllProgress(Since(trace))
    ensures ImagePhase(trace).Silent? ==> trace == []
    ensures ImagePhase(trace).Resulted? ==>
      exists progress, result :: AllProgress(progress) && Result(result) && Since(trace) == progress + [result]
    ensures !ImagePhase(trace).Resulted? ==> ImageStory(Since(trace))
  {
    if trace != [] {
      var rest, e := trace[..|trace| - 1], trace[|trace| - 1];
      ImageStories(rest);
      if ImagePhase(trace).Resulted? {
        assert Since(trace) == Since(rest) + [e];
      } else if ImagePhase(trace).Ended? && !e.LoadStart? {
        var progress, result :| AllProgress(progress) && Result(result) && Since(rest) == progress + [result];
        assert Since(trace) == progress + [result, LoadEnd];
      }
    }
  }

  lemma {:induction false} ExpoStories(trace: seq<Event>)
    requires !ExpoPhase(trace).Broken?
    ensures ExpoPhase(trace).Loading? ==> AllProgress(Since(trace))
    ensures ExpoPhase(trace).Silent? ==> trace == []
    ensures ExpoPhase(trace).Displayed? ==>
      exists progress :: AllProgress(progress) && Since(trace) == progress + [Display]
    ensures !ExpoPhase(trace).Displayed? ==> ExpoStory(Since(trace))
  {
    if trace != [] {
      var rest, e := trace[..|trace| - 1], trace[|trace| - 1];
      ExpoStories(rest);
      if ExpoPhase(trace).Displayed? {
        assert Since(trace) == Since(rest) + [e];
      } else if ExpoPhase(trace).Ended? && e.Load? {
        var progress :| AllProgress(progress) && Since(rest) == progress + [Display];
        assert Since(trace) == progress + [Display, Load];
      } else if ExpoPhase(trace).Ended? && e.Error? {
        assert Since(trace) == Since(rest) + [Error];
      }
    }
  }

  lemma {:induction false} UnbrokenBefore(trace: seq<Event>, n: nat)
    requires n <= |trace|
    ensures !ImagePhase(trace).Broken? ==> !ImagePhase(trace[..n]).Broken?
    ensures !ExpoPhase(trace).Broken? ==> !ExpoPhase(trace[..n]).Broken?
    decreases |trace|
  {
    if n == |trace| {
      assert trace[..n] == trace;
    } else {
      UnbrokenBefore(trace[..|trace| - 1], n);
      assert trace[..|trace| - 1][..n] == trace[..n];
    }
  }

  /** What was told before any loadStart is one whole story too, or the start of one. */
  lemma {:induction false} ImageStoryBefore(trace: seq<Event>, n: nat)
    requires !ImagePhase(trace).Broken? && n < |trace| && trace[n].LoadStart?
    ensures ImageStory(Since(trace[..n]))
  {
    hide Since;
    UnbrokenBefore(trace, n);
    UnbrokenBefore(trace, n + 1);
    assert trace[..n + 1] == trace[..n] + [trace[n]];
    PhaseMore(trace[..n], trace[n]);
    ImageStories(trace[..n]);
  }

  lemma {:induction false} ExpoStoryBefore(trace: seq<Event>, n: nat)
    requires !ExpoPhase(trace).Broken? && n < |trace| && trace[n].LoadStart?
    ensures ExpoStory(Since(trace[..n]))
  {
    hide Since;
    UnbrokenBefore(trace, n);
    UnbrokenBefore(trace, n + 1);
    assert trace[..n + 1] == trace[..n] + [trace[n]];
    PhaseMore(trace[..n], trace[n]);
    ExpoStories(trace[..n]);
  }

  // Who waits.

  predicate Waits(shown: map<Tag, Shown>, expo: map<Tag, ExpoShown>, refLoads: map<Id, int>, id: Id) {
    ViewsWait(shown, expo, id) || id in refLoads
  }

  predicate ViewsWait(shown: map<Tag, Shown>, expo: map<Tag, ExpoShown>, id: Id) {
    (exists tag | tag in shown :: shown[tag].loading == id) || (exists tag | tag in expo :: expo[tag].Awaits(id))
  }

  datatype Fetch = Fetch(key: Key, memory: bool)

  /** A load a view names: none, or one on its way for the picture the view wants (or `gone`, just answered). */
  predicate Live(loads: map<Id, Fetch>, id: Id, key: Key, gone: Id) {
    id != 0 && id != gone ==> id in loads && loads[id].key == key
  }

  predicate ExpoLive(loads: map<Id, Fetch>, e: ExpoShown, gone: Id) {
    Live(loads, e.main.loading, e.main.key, gone) && Live(loads, e.placeholder.loading, e.placeholder.key, gone) &&
    Live(loads, e.resized.loading, e.resized.key, gone) && (e.resized.loading != 0 ==> e.main.loading == 0) &&
    (e.told ==> e.main.loading == 0)
  }

  /**
   Nothing waits for a load that is not on its way (but `gone`), and nothing is on its way that nobody waits for
   (but `spare`, about to be released).
   */
  ghost predicate Books(
      shown: map<Tag, Shown>, expo: map<Tag, ExpoShown>, refLoads: map<Id, int>, loads: map<Id, Fetch>, next: Id,
      gone: Id,
      spare: set<Id>) {
    gone !in loads &&
    (forall tag :: tag in shown ==> Live(loads, shown[tag].loading, shown[tag].key, gone)) &&
    (forall tag :: tag in expo ==> ExpoLive(loads, expo[tag], gone)) &&
    (forall id :: id in refLoads ==> id != 0 && (id != gone ==> id in loads)) &&
    (forall id :: id in loads ==> 0 < id <= next) &&
    (forall id :: id in loads && id !in spare ==> Waits(shown, expo, refLoads, id))
  }

  /** release: a load nobody waits for any more is off the books. */
  function Released(loads: map<Id, Fetch>, id: Id, waited: bool): map<Id, Fetch> {
    if id != 0 && id in loads && !waited then loads - {id} else loads
  }

  lemma ReleasedBooks(
      shown: map<Tag, Shown>, expo: map<Tag, ExpoShown>, refLoads: map<Id, int>, loads: map<Id, Fetch>, next: Id,
      gone: Id, spare: set<Id>, id: Id)
    requires Books(shown, expo, refLoads, loads, next, gone, spare)
    ensures Books(shown, expo, refLoads, Released(loads, id, Waits(shown, expo, refLoads, id)), next, gone,
      spare - {id})
  {
  }

  function LoadingOf(shown: map<Tag, Shown>, tag: Tag): Id { if tag in shown then shown[tag].loading else 0 }

  /** One view waits for something else: what it waited for is perhaps spare. */
  lemma ShownBooks(
      was: map<Tag, Shown>, shown: map<Tag, Shown>, expo: map<Tag, ExpoShown>, refLoads: map<Id, int>,
      loads: map<Id, Fetch>, next: Id, gone: Id, spare: set<Id>, tag: Tag)
    requires Books(was, expo, refLoads, loads, next, gone, spare)
    requires spare <= {LoadingOf(shown, tag)} && shown - {tag} == was - {tag}
    requires tag in shown ==> Live(loads, shown[tag].loading, shown[tag].key, gone)
    ensures Books(shown, expo, refLoads, loads, next, gone, {LoadingOf(was, tag)})
  {
    forall t | t in shown ensures Live(loads, shown[t].loading, shown[t].key, gone) {
      assert t != tag ==> t in shown - {tag};
    }
    forall id | id in loads && id != LoadingOf(was, tag) ensures Waits(shown, expo, refLoads, id) {
      if id !in spare {
        if t :| t in was && was[t].loading == id {
          assert t in shown - {tag};
        }
      } else {
        assert tag in shown && shown[tag].loading == id;
      }
    }
  }

  lemma ToldBooks(
      shown: map<Tag, Shown>, expo: map<Tag, ExpoShown>, refLoads: map<Id, int>, loads: map<Id, Fetch>, next: Id,
      gone: Id, spare: set<Id>, tag: Tag)
    requires Books(shown, expo, refLoads, loads, next, gone, spare) && tag in shown
    ensures Books(shown[tag := shown[tag].(told := true)], expo, refLoads, loads, next, gone, spare)
  {
    var told := shown[tag := shown[tag].(told := true)];
    forall id | id in loads && id !in spare ensures Waits(told, expo, refLoads, id) {
      if t :| t in shown && shown[t].loading == id {
        assert told[t].loading == id;
      }
    }
  }

  lemma MoreSpare(
      shown: map<Tag, Shown>, expo: map<Tag, ExpoShown>, refLoads: map<Id, int>, loads: map<Id, Fetch>, next: Id,
      gone: Id, spare: set<Id>, more: set<Id>)
    requires Books(shown, expo, refLoads, loads, next, gone, spare) && spare <= more
    ensures Books(shown, expo, refLoads, loads, next, gone, more)
  {
  }

  lemma BooksRange(
      shown: map<Tag, Shown>, expo: map<Tag, ExpoShown>, refLoads: map<Id, int>, loads: map<Id, Fetch>, next: Id,
      gone: Id, spare: set<Id>)
    requires Books(shown, expo, refLoads, loads, next, gone, spare)
    ensures forall id :: id in loads ==> 0 < id <= next
  {
  }

  /** A load begun, for one that will wait for it. */
  lemma BegunBooks(
      shown: map<Tag, Shown>, expo: map<Tag, ExpoShown>, refLoads: map<Id, int>, loads: map<Id, Fetch>, next: Id,
      gone: Id, fetch: Fetch)
    requires Books(shown, expo, refLoads, loads, next, gone, {}) && gone <= next
    ensures Books(shown, expo, refLoads, loads[next + 1 := fetch], next + 1, gone, {next + 1})
    ensures Books(shown, expo, refLoads, loads, next + 1, gone, {})
  {
  }

  function TraceOf(events: map<Tag, seq<Event>>, tag: Tag): seq<Event> { if tag in events then events[tag] else [] }

  function Said(events: map<Tag, seq<Event>>, tag: Tag, more: seq<Event>): map<Tag, seq<Event>> {
    events[tag := TraceOf(events, tag) + more]
  }

  /** Every trace is a run of whole stories, the last perhaps still loading. */
  predicate Whole(kind: Kind, trace: seq<Event>) {
    match kind
    case Image => !ImagePhase(trace).Broken? && !ImagePhase(trace).Resulted?
    case Expo => !ExpoPhase(trace).Broken? && !ExpoPhase(trace).Displayed?
    case Other => true
  }

  /** An Image view's story as its `told` says it; a view gone from the tree has no more of it told. */
  predicate ImageTold(s: Shown, broken: bool, heard: bool, trace: seq<Event>) {
    (!s.told ==> s.loading != 0) && (s.loading != 0 ==> !broken) &&
    (heard ==> ImagePhase(trace) == if s.told then Ended else Loading)
  }

  predicate ExpoTold(e: ExpoShown, heard: bool, trace: seq<Event>) {
    heard ==> (e.told ==> ExpoPhase(trace).Ended?) && (!e.told && e.main.loading != 0 ==> ExpoPhase(trace).Loading?)
  }

  // The stories of every view there is, or was.

  predicate Hears(tree: map<Tag, View>, listens: Tag -> bool, tag: Tag) {
    tag in tree && tree[tag].ImageView? && listens(tag)
  }

  predicate HearsExpo(tree: map<Tag, View>, tag: Tag) { tag in tree && tree[tag].ExpoView? }

  ghost predicate Known(tree: map<Tag, View>, events: map<Tag, seq<Event>>, kinds: map<Tag, Kind>) {
    (forall tag :: tag in tree ==> tag in kinds && kinds[tag] == KindOf(tree[tag])) &&
    (forall tag :: tag in events ==> tag in kinds) &&
    (forall tag :: tag in kinds ==> Whole(kinds[tag], TraceOf(events, tag)))
  }

  ghost predicate ImagesTold(
      shown: map<Tag, Shown>, tree: map<Tag, View>, events: map<Tag, seq<Event>>, kinds: map<Tag, Kind>,
      listens: Tag -> bool,
      broken: int -> bool) {
    forall tag :: tag in shown ==>
      tag in kinds && kinds[tag].Image? &&
      ImageTold(shown[tag], broken(shown[tag].uri), Hears(tree, listens, tag), TraceOf(events, tag))
  }

  predicate Idle(e: ExpoShown) {
    !e.told && e.main.loading == 0 && e.placeholder.loading == 0 && e.resized.loading == 0
  }

  ghost predicate ExposTold(
      expo: map<Tag, ExpoShown>, tree: map<Tag, View>, events: map<Tag, seq<Event>>, kinds: map<Tag, Kind>) {
    forall tag :: tag in expo ==>
      ExpoTold(expo[tag], HearsExpo(tree, tag), TraceOf(events, tag)) &&
      (tag !in kinds || !kinds[tag].Expo? ==> Idle(expo[tag]))
  }

  /** An ImageRef waits for one load, and is answered once. */
  ghost predicate RefsOnce(
      refLoads: map<Id, int>, settled: map<int, Option<Picture>>, refs: map<int, Option<Picture>>, nextRef: nat) {
    (forall id :: id in refLoads ==> 0 < refLoads[id] <= nextRef && refLoads[id] !in settled) &&
    (forall id, other :: id in refLoads && other in refLoads && refLoads[id] == refLoads[other] ==> id == other) &&
    (forall ref :: ref in settled ==> 0 < ref <= nextRef) &&
    (forall ref :: ref in refs ==> 0 < ref <= nextRef)
  }

  /** One view's events go on, and nobody else's. */
  predicate SaidTo(was: map<Tag, seq<Event>>, events: map<Tag, seq<Event>>, tag: Tag) {
    events == was || (tag in events && events == was[tag := events[tag]])
  }

  lemma OneImageTold(
      was: map<Tag, Shown>, shown: map<Tag, Shown>, expo: map<Tag, ExpoShown>, tree: map<Tag, View>,
      before: map<Tag, seq<Event>>, events: map<Tag, seq<Event>>, kinds: map<Tag, Kind>, listens: Tag -> bool,
      broken: int -> bool, tag: Tag)
    requires Known(tree, before, kinds) && ImagesTold(was, tree, before, kinds, listens, broken)
    requires ExposTold(expo, tree, before, kinds)
    requires tag in was || (tag in tree && tree[tag].ImageView?)
    requires SaidTo(before, events, tag) && shown - {tag} == was - {tag}
    requires events != before ==> Whole(Image, TraceOf(events, tag))
    requires tag in shown ==>
      ImageTold(shown[tag], broken(shown[tag].uri), Hears(tree, listens, tag), TraceOf(events, tag))
    ensures Known(tree, events, kinds) && ImagesTold(shown, tree, events, kinds, listens, broken)
    ensures ExposTold(expo, tree, events, kinds)
  {
    forall t ensures t != tag ==> TraceOf(events, t) == TraceOf(before, t) {
    }
    forall t | t in shown && t != tag
      ensures t in kinds && kinds[t].Image? &&
        ImageTold(shown[t], broken(shown[t].uri), Hears(tree, listens, t), TraceOf(events, t))
    {
      assert t in shown - {tag};
    }
  }

  lemma OneExpoTold(
      shown: map<Tag, Shown>, was: map<Tag, ExpoShown>, expo: map<Tag, ExpoShown>, tree: map<Tag, View>,
      before: map<Tag, seq<Event>>, events: map<Tag, seq<Event>>, kinds: map<Tag, Kind>, listens: Tag -> bool,
      broken: int -> bool, tag: Tag)
    requires Known(tree, before, kinds) && ImagesTold(shown, tree, before, kinds, listens, broken)
    requires ExposTold(was, tree, before, kinds)
    requires SaidTo(before, events, tag) && expo - {tag} == was - {tag}
    requires events != before ==> HearsExpo(tree, tag) && Whole(Expo, TraceOf(events, tag))
    requires tag in expo ==> ExpoTold(expo[tag], HearsExpo(tree, tag), TraceOf(events, tag))
    requires tag in expo && !HearsExpo(tree, tag) ==> Idle(expo[tag]) || (tag in was && !Idle(was[tag]))
    ensures Known(tree, events, kinds) && ImagesTold(shown, tree, events, kinds, listens, broken)
    ensures ExposTold(expo, tree, events, kinds)
  {
    forall t ensures t != tag ==> TraceOf(events, t) == TraceOf(before, t) {
    }
    forall t | t in expo && t != tag
      ensures ExpoTold(expo[t], HearsExpo(tree, t), TraceOf(events, t)) &&
        (t !in kinds || !kinds[t].Expo? ==> Idle(expo[t]))
    {
      assert t in expo - {tag};
    }
  }

  /** Nothing is begun between two books. */
  predicate Fewer(loads: map<Id, Fetch>, before: map<Id, Fetch>) {
    forall id :: id in loads ==> id in before && loads[id] == before[id]
  }

  predicate OnItsWay(loads: map<Id, Fetch>, key: Key) { exists id | id in loads :: loads[id].key == key }

  /** What was begun since `was`, and only for keys nothing else is on its way for. */
  ghost predicate NoSecond(before: map<Id, Fetch>, was: Id, loads: map<Id, Fetch>, next: Id) {
    was <= next &&
    (forall id :: id in loads && id <= was ==> id in before && before[id] == loads[id]) &&
    (forall id, other :: id in loads && other in loads && was < id && other != id ==> loads[other].key != loads[id].key)
  }

  lemma NoSecondSince(a: map<Id, Fetch>, one: Id, b: map<Id, Fetch>, two: Id, c: map<Id, Fetch>, three: Id)
    requires NoSecond(a, one, b, two) && NoSecond(b, two, c, three)
    ensures NoSecond(a, one, c, three)
  {
  }

  /** The view asks for another picture than it did. */
  predicate Anew(shown: map<Tag, Shown>, tag: Tag, source: Source) {
    tag in shown ==> shown[tag].key != source.key || shown[tag].uri != source.uri
  }

  /** Its source is the one it had, for JavaScript: at another size, perhaps. */
  predicate SameSource(shown: map<Tag, Shown>, tag: Tag, source: Source) {
    tag in shown && shown[tag].uri == source.uri && shown[tag].scale == source.scale
  }

  /** A view told a result of the very source already, which is not told again, nor what it draws taken away. */
  predicate ToldBefore(shown: map<Tag, Shown>, tag: Tag, source: Source) {
    SameSource(shown, tag, source) && shown[tag].told
  }

  /** What an Image view's JavaScript hears as the view is brought to a source. */
  function SyncSays(same: bool, told: bool, waiting: bool, picture: bool): seq<Event> {
    (if same then [] else [LoadStart]) +
    if waiting || (same && told) then [] else [if picture then Event.Load else Error, LoadEnd]
  }

  lemma {:induction false} SyncPhase(trace: seq<Event>, same: bool, told: bool, waiting: bool, picture: bool)
    requires Whole(Image, trace) && (same ==> ImagePhase(trace) == if told then Ended else Loading)
    ensures ImagePhase(trace + SyncSays(same, told, waiting, picture)) ==
              if waiting && !(same && told) then Loading else Ended
  {
    var began := trace + if same then [] else [LoadStart];
    PhaseMore(trace, LoadStart);
    assert trace + [] == trace;
    if !waiting && !(same && told) {
      var result := if picture then Event.Load else Error;
      PhaseMore(began, result);
      PhaseMore(began + [result], LoadEnd);
      assert trace + SyncSays(same, told, waiting, picture) == began + [result] + [LoadEnd];
    } else {
      assert trace + SyncSays(same, told, waiting, picture) == began;
    }
  }

  /** A view brought to a source: where `shown` and the events then are. */
  predicate Synced(
      was: map<Tag, Shown>, shown: map<Tag, Shown>, before: map<Tag, seq<Event>>, events: map<Tag, seq<Event>>,
      tag: Tag,
      source: Source, hears: bool, picture: bool) {
    tag in shown && shown - {tag} == was - {tag} && SaidTo(before, events, tag) &&
    shown[tag].key == source.key && shown[tag].uri == source.uri && shown[tag].scale == source.scale &&
    (var same, told := SameSource(was, tag, source), tag in was && was[tag].told;
     shown[tag].told == (shown[tag].loading == 0 || (same && told)) &&
     if hears
     then TraceOf(events, tag) == TraceOf(before, tag) + SyncSays(same, told, shown[tag].loading != 0, picture)
     else events == before)
  }

  function SyncTells(
      before: map<Tag, seq<Event>>, hears: bool, tag: Tag, same: bool, told: bool, waiting: bool, picture: bool):
    map<Tag, seq<Event>>
  {
    var began := if hears && !same then Said(before, tag, [LoadStart]) else before;
    if hears && !waiting && !(same && told) then Said(began, tag, [if picture then Event.Load else Error, LoadEnd])
      else began
  }

  lemma SyncedBy(
      was: map<Tag, Shown>, entry: Shown, before: map<Tag, seq<Event>>, tag: Tag, source: Source, hears: bool,
      picture: bool)
    requires entry.key == source.key && entry.uri == source.uri && entry.scale == source.scale
    requires entry.told == (entry.loading == 0 || (SameSource(was, tag, source) && was[tag].told))
    ensures var told := tag in was && was[tag].told;
            var events := SyncTells(before, hears, tag, SameSource(was, tag, source), told, entry.loading != 0,
              picture);
            Synced(was, was[tag := entry], before, events, tag, source, hears, picture)
  {
    assert was[tag := entry] - {tag} == was - {tag};
  }

  lemma SyncedTold(
      was: map<Tag, Shown>, shown: map<Tag, Shown>, expo: map<Tag, ExpoShown>, tree: map<Tag, View>,
      before: map<Tag, seq<Event>>, events: map<Tag, seq<Event>>, kinds: map<Tag, Kind>, listens: Tag -> bool,
      broken: int -> bool, tag: Tag, source: Source, picture: bool)
    requires Known(tree, before, kinds) && ImagesTold(was, tree, before, kinds, listens, broken)
    requires ExposTold(expo, tree, before, kinds) && tag in tree && tree[tag].ImageView?
    requires Synced(was, shown, before, events, tag, source, Hears(tree, listens, tag), picture)
    requires shown[tag].loading != 0 ==> !broken(source.uri)
    ensures Known(tree, events, kinds) && ImagesTold(shown, tree, events, kinds, listens, broken)
    ensures ExposTold(expo, tree, events, kinds)
  {
    var same, told := SameSource(was, tag, source), tag in was && was[tag].told;
    if Hears(tree, listens, tag) {
      SyncPhase(TraceOf(before, tag), same, told, shown[tag].loading != 0, picture);
    }
    OneImageTold(was, shown, expo, tree, before, events, kinds, listens, broken, tag);
  }

  /** What cannot be loaded was told so when its source was first asked for. */
  lemma BrokenTold(
      shown: map<Tag, Shown>, tree: map<Tag, View>, events: map<Tag, seq<Event>>, kinds: map<Tag, Kind>,
      listens: Tag -> bool, broken: int -> bool, tag: Tag)
    requires ImagesTold(shown, tree, events, kinds, listens, broken) && tag in shown && broken(shown[tag].uri)
    ensures shown[tag].told
  {
  }

  // expo-image's views.

  /** One expo-image view waits for other loads: those it lost are perhaps spare. */
  lemma ExpoBooks(
      shown: map<Tag, Shown>, was: map<Tag, ExpoShown>, expo: map<Tag, ExpoShown>, refLoads: map<Id, int>,
      loads: map<Id, Fetch>, next: Id, gone: Id, spare: set<Id>, lost: set<Id>, tag: Tag)
    requires Books(shown, was, refLoads, loads, next, gone, spare) && expo - {tag} == was - {tag}
    requires tag in expo ==> ExpoLive(loads, expo[tag], gone)
    requires forall id :: id in loads && (id in spare || (tag in was && was[tag].Awaits(id))) ==>
      id in lost || (tag in expo && expo[tag].Awaits(id))
    ensures Books(shown, expo, refLoads, loads, next, gone, lost)
  {
    forall t | t in expo ensures ExpoLive(loads, expo[t], gone) {
      assert t != tag ==> t in expo - {tag};
    }
    forall id | id in loads && id !in lost ensures Waits(shown, expo, refLoads, id) {
      if tag in expo && expo[tag].Awaits(id) {
      } else {
        assert Waits(shown, was, refLoads, id);
        if t :| t in was && was[t].Awaits(id) {
          assert t in expo - {tag};
        }
      }
    }
  }

  function Stopped(e: ExpoShown, w: Which): ExpoShown { WithPart(e, w, Part(e, w).(loading := 0)) }

  /** A view given the picture of its source, its placeholder or its resized decode. */
  function Given(e: ExpoShown, w: Which): ExpoShown {
    match w
    case Main => Stopped(Stopped(e, Main), Placeholder).(told := true)
    case Placeholder => Stopped(e, Placeholder)
    case Resized => e.(main := e.main.(key := e.resized.key), resized := NOTHING)
  }

  /** A view whose source, placeholder or resized decode failed. */
  function Refused(e: ExpoShown, w: Which): ExpoShown {
    match w
    case Main => Stopped(e, Main).(told := true)
    case Placeholder => Stopped(e, Placeholder)
    case Resized => e.(resized := NOTHING)
  }

  /** What its JavaScript hears of it: of its source alone, and once. */
  function Outcome(told: bool, w: Which, picture: bool): seq<Event> {
    if !w.Main? || told then [] else if picture then [Display, Event.Load] else [Error]
  }

  lemma {:induction false} OutcomePhase(trace: seq<Event>, told: bool, w: Which, picture: bool)
    requires w.Main? && !told ==> ExpoPhase(trace).Loading?
    ensures ExpoPhase(trace + Outcome(told, w, picture)) == if w.Main? && !told then Ended else ExpoPhase(trace)
  {
    if !w.Main? || told {
      assert trace + Outcome(told, w, picture) == trace;
    } else if picture {
      PhaseMore(trace, Display);
      PhaseMore(trace + [Display], Event.Load);
      assert trace + Outcome(told, w, picture) == trace + [Display] + [Event.Load];
    } else {
      PhaseMore(trace, Error);
    }
  }

  lemma StoppedBooks(
      shown: map<Tag, Shown>, expo: map<Tag, ExpoShown>, refLoads: map<Id, int>, loads: map<Id, Fetch>, next: Id,
      gone: Id, tag: Tag, w: Which)
    requires Books(shown, expo, refLoads, loads, next, gone, {}) && tag in expo
    ensures Books(shown, expo[tag := Stopped(expo[tag], w)], refLoads, loads, next, gone, {Part(expo[tag], w).loading})
  {
    ExpoBooks(shown, expo, expo[tag := Stopped(expo[tag], w)], refLoads, loads, next, gone, {},
      {Part(expo[tag], w).loading}, tag);
  }

  /** A view given a picture, or refused one, by the load just `gone` or at hand. */
  lemma AnsweredBooks(
      shown: map<Tag, Shown>, expo: map<Tag, ExpoShown>, refLoads: map<Id, int>, loads: map<Id, Fetch>, next: Id,
      gone: Id, tag: Tag, w: Which, e: ExpoShown)
    requires Books(shown, expo, refLoads, loads, next, gone, {}) && tag in expo && Part(expo[tag], w).loading == gone
    requires w.Resized? ==> expo[tag].main.loading == 0
    requires e == Stopped(expo[tag], w) || e == Refused(expo[tag], w) || (w.Resized? && e == Given(expo[tag], w))
    ensures Books(shown, expo[tag := e], refLoads, loads, next, gone, {})
  {
    var now := expo[tag := e];
    assert now - {tag} == expo - {tag};
    ExpoBooks(shown, expo, now, refLoads, loads, next, gone, {}, {}, tag);
  }

  lemma AnsweredTold(
      shown: map<Tag, Shown>, was: map<Tag, ExpoShown>, e: ExpoShown, tree: map<Tag, View>,
      before: map<Tag, seq<Event>>, events: map<Tag, seq<Event>>, kinds: map<Tag, Kind>, listens: Tag -> bool,
      broken: int -> bool, tag: Tag, w: Which, picture: bool)
    requires Known(tree, before, kinds) && ImagesTold(shown, tree, before, kinds, listens, broken)
    requires ExposTold(was, tree, before, kinds) && tag in was
    requires if tag in tree then tree[tag].ExpoView? else !Idle(was[tag]) && events == before
    requires tag in tree && w.Main? ==> !was[tag].told && ExpoPhase(TraceOf(before, tag)).Loading?
    requires SaidTo(before, events, tag)
    requires tag in tree ==> TraceOf(events, tag) == TraceOf(before, tag) + Outcome(false, w, picture)
    requires if w.Main? then e.main.loading == 0 && (tag in tree ==> e.told)
             else e.told == was[tag].told && e.main.loading == was[tag].main.loading
    ensures Known(tree, events, kinds) && ImagesTold(shown, tree, events, kinds, listens, broken)
    ensures ExposTold(was[tag := e], tree, events, kinds)
  {
    if tag in tree { OutcomePhase(TraceOf(before, tag), false, w, picture); }
    assert was[tag := e] - {tag} == was - {tag};
    OneExpoTold(shown, was, was[tag := e], tree, before, events, kinds, listens, broken, tag);
  }

  function Asking(e: ExpoShown, w: Which, id: Id): ExpoShown { WithPart(e, w, Part(e, w).(loading := id)) }

  /** A request made: its picture was at hand, or a load will bring it, or it is refused. */
  predicate Requested(e: ExpoShown, now: ExpoShown, w: Which, held: bool, waiting: bool) {
    if held then now == Given(e, w)
    else if waiting then now == Asking(e, w, Part(now, w).loading) && Part(now, w).loading != 0
    else now == Refused(e, w)
  }

  lemma AskingBooks(
      shown: map<Tag, Shown>, expo: map<Tag, ExpoShown>, refLoads: map<Id, int>, loads: map<Id, Fetch>, next: Id,
      tag: Tag, w: Which, id: Id)
    requires Books(shown, expo, refLoads, loads, next, 0, {id}) && tag in expo && Part(expo[tag], w).loading == 0
    requires id in loads && loads[id].key == Part(expo[tag], w).key
    requires w.Main? ==> !expo[tag].told && expo[tag].resized.loading == 0
    requires w.Resized? ==> expo[tag].main.loading == 0
    ensures Books(shown, expo[tag := Asking(expo[tag], w, id)], refLoads, loads, next, 0, {})
  {
    var now := expo[tag := Asking(expo[tag], w, id)];
    assert now - {tag} == expo - {tag};
    ExpoBooks(shown, expo, now, refLoads, loads, next, 0, {id}, {}, tag);
  }

  lemma AskingTold(
      shown: map<Tag, Shown>, was: map<Tag, ExpoShown>, tree: map<Tag, View>, events: map<Tag, seq<Event>>,
      kinds: map<Tag, Kind>, listens: Tag -> bool, broken: int -> bool, tag: Tag, w: Which, id: Id)
    requires Known(tree, events, kinds) && ImagesTold(shown, tree, events, kinds, listens, broken)
    requires ExposTold(was, tree, events, kinds) && tag in was && HearsExpo(tree, tag)
    requires w.Main? ==> ExpoPhase(TraceOf(events, tag)).Loading?
    ensures ExposTold(was[tag := Asking(was[tag], w, id)], tree, events, kinds)
  {
    assert was[tag := Asking(was[tag], w, id)] - {tag} == was - {tag};
    OneExpoTold(shown, was, was[tag := Asking(was[tag], w, id)], tree, events, events, kinds, listens, broken, tag);
  }

  predicate AtRest(e: ExpoShown) { e.main.loading == 0 && e.placeholder.loading == 0 && e.resized.loading == 0 }

  /** A view that waits for nothing, whatever it is to show, waits for nothing. */
  lemma RestBooks(
      shown: map<Tag, Shown>, expo: map<Tag, ExpoShown>, refLoads: map<Id, int>, loads: map<Id, Fetch>, next: Id,
      tag: Tag, e: ExpoShown)
    requires Books(shown, expo, refLoads, loads, next, 0, {}) && AtRest(e) && (tag in expo ==> AtRest(expo[tag]))
    ensures Books(shown, expo[tag := e], refLoads, loads, next, 0, {})
  {
    assert expo[tag := e] - {tag} == expo - {tag};
    ExpoBooks(shown, expo, expo[tag := e], refLoads, loads, next, 0, {}, {}, tag);
  }

  /** A view that waits for nothing and was told nothing may have been told anything before. */
  lemma RestTold(
      shown: map<Tag, Shown>, was: map<Tag, ExpoShown>, tree: map<Tag, View>, events: map<Tag, seq<Event>>,
      kinds: map<Tag, Kind>, listens: Tag -> bool, broken: int -> bool, tag: Tag, e: ExpoShown)
    requires Known(tree, events, kinds) && ImagesTold(shown, tree, events, kinds, listens, broken)
    requires ExposTold(was, tree, events, kinds) && AtRest(e) && (!e.told || (tag in was && was[tag].told))
    ensures ExposTold(was[tag := e], tree, events, kinds)
  {
    assert was[tag := e] - {tag} == was - {tag};
    OneExpoTold(shown, was, was[tag := e], tree, events, events, kinds, listens, broken, tag);
  }

  /** What a view is to show, before anything of it is asked for. */
  function Fresh(e: ExpoShown, p: ExpoProps): ExpoShown {
    ExpoShown(
      Request(MainIdentity(p.main), if p.main.BestMain? then p.main.source.key else 0, 0),
      Request(PlaceholderIdentity(p), if p.placeholder.Some? then p.placeholder.value.key else 0, 0),
      NOTHING, false, e.locked, false)
  }

  function Cleared(e: ExpoShown): ExpoShown { ExpoShown(NOTHING, NOTHING, NOTHING, false, e.locked, e.reload) }

  predicate AsksAnew(e: ExpoShown, p: ExpoProps) {
    e.reload || MainIdentity(p.main) != e.main.identity || PlaceholderIdentity(p) != e.placeholder.identity
  }

  predicate SizedAlike(e: ExpoShown, p: ExpoProps) {
    !p.main.BestMain? || p.fixed || p.main.source.key == e.main.key ||
    (e.resized.loading != 0 && p.main.source.key == e.resized.key)
  }

  lemma StartTold(
      shown: map<Tag, Shown>, expo: map<Tag, ExpoShown>, tree: map<Tag, View>, events: map<Tag, seq<Event>>,
      kinds: map<Tag, Kind>, listens: Tag -> bool, broken: int -> bool, tag: Tag)
    requires Known(tree, events, kinds) && ImagesTold(shown, tree, events, kinds, listens, broken)
    requires ExposTold(expo, tree, events, kinds) && tag in expo && HearsExpo(tree, tag) && !expo[tag].told
    ensures var now := Said(events, tag, [LoadStart]);
            ExpoPhase(TraceOf(now, tag)).Loading? && Known(tree, now, kinds) &&
            ImagesTold(shown, tree, now, kinds, listens, broken) && ExposTold(expo, tree, now, kinds)
  {
    PhaseMore(TraceOf(events, tag), LoadStart);
    OneExpoTold(shown, expo, expo, tree, events, Said(events, tag, [LoadStart]), kinds, listens, broken, tag);
  }

  /** A view after its source was asked for anew: told of it, or waiting for it. */
  predicate ShownAnew(e: ExpoShown, now: ExpoShown, p: ExpoProps) {
    var begun := Fresh(e, p);
    now.main == begun.main.(loading := now.main.loading) && now.resized == NOTHING && !now.reload &&
    now.placeholder == begun.placeholder.(loading := now.placeholder.loading) && now.locked == begun.locked &&
    (now.told <==> !p.main.NoMain? && now.main.loading == 0) && (now.told ==> now.placeholder.loading == 0)
  }

  function WithKey(e: ExpoShown, key: Key): ExpoShown { e.(main := e.main.(key := key)) }

  /** A source still on its way, asked for at another size: the same source, waited for, or told of now. */
  predicate AskedAgain(e: ExpoShown, now: ExpoShown, key: Key) {
    now.main == e.main.(key := key, loading := now.main.loading) && now.resized == e.resized.(loading := 0) &&
    (now.told <==> now.main.loading == 0) && now.reload == e.reload && now.locked == e.locked &&
    (now.placeholder == e.placeholder || (now.told && now.placeholder == e.placeholder.(loading := 0)))
  }

  /** A source shown already, decoded at another size: perhaps shown at it at once, or kept as it was. */
  predicate Redecoded(e: ExpoShown, now: ExpoShown, key: Key) {
    now.told == e.told && now.placeholder == e.placeholder && now.reload == e.reload && now.locked == e.locked &&
    (now.main == e.main || now.main == e.main.(key := key)) &&
    (now.resized == NOTHING || (now.resized.loading != 0 && now.resized.key == key && now.main == e.main))
  }

  /** Whether there is anything to bring a view to. */
  predicate Brings(e: ExpoShown, p: ExpoProps) {
    !(e.locked && !e.reload) && !p.empty && !(p.main.NoMain? && p.placeholder.None?)
  }

  predicate ShownResized(e: ExpoShown, now: ExpoShown, p: ExpoProps)
    requires p.main.BestMain?
  {
    if e.main.loading != 0 then AskedAgain(e, now, p.main.source.key) else Redecoded(e, now, p.main.source.key)
  }

  /** The same source at a size: as it was where the code looks no further, else asked for. */
  predicate KeptOrResized(e: ExpoShown, now: ExpoShown, p: ExpoProps) {
    if SizedAlike(e, p) then now == e else ShownResized(e, now, p)
  }

  // The size a view ends decoded at.

  /** The key of the decode a view comes to show, should all it waits for arrive. */
  function EndsAt(e: ExpoShown): Key { if e.resized.loading != 0 then e.resized.key else e.main.key }

  /** A view after answers, all of them pictures. */
  function AllGiven(e: ExpoShown, answers: seq<Id>): ExpoShown
    decreases |answers|
  {
    if answers == [] then e else AllGiven(ExpoAnswered(e, answers[0], true, true), answers[1..])
  }

  /** In whatever order they arrive, a view ends there. */
  lemma {:induction false} EndsThere(e: ExpoShown, answers: seq<Id>)
    requires forall id :: id in answers ==> id != 0
    ensures EndsAt(AllGiven(e, answers)) == EndsAt(e)
    decreases |answers|
  {
    if answers != [] {
      assert forall id :: id in answers[1..] ==> id in answers;
      EndsThere(ExpoAnswered(e, answers[0], true, true), answers[1..]);
    }
  }

  /** Resized and then back, before the decode for the other size arrived. */
  predicate ResizedBack(e: ExpoShown, key: Key) {
    key == e.main.key && e.resized.loading != 0 && e.resized.key != key
  }

  /** A view whose decode for a new size was refused shows the one it has. */
  predicate SizeRefused(e: ExpoShown, now: ExpoShown, key: Key) {
    key != e.main.key && e.main.loading == 0 && now.main == e.main && now.resized == NOTHING
  }

  /**
   Brought to a size, a view ends decoded at it, all it waits for arriving, exactly when it was not resized away and
   back while a decode was on its way, nor refused the decode.
   */
  lemma {:induction false} SizeEndsExactly(e: ExpoShown, now: ExpoShown, p: ExpoProps, answers: seq<Id>)
    requires p.main.BestMain? && !p.fixed && KeptOrResized(e, now, p)
    requires forall id :: id in answers ==> id != 0
    requires AtRest(AllGiven(now, answers)) && (e.resized.loading != 0 ==> e.main.loading == 0)
    ensures var key := p.main.source.key;
            AllGiven(now, answers).main.key == key <==> !ResizedBack(e, key) && !SizeRefused(e, now, key)
  {
    EndsThere(now, answers);
  }

  lemma StillLoading(
      shown: map<Tag, Shown>, expo: map<Tag, ExpoShown>, refLoads: map<Id, int>, loads: map<Id, Fetch>, next: Id,
      tree: map<Tag, View>, events: map<Tag, seq<Event>>, kinds: map<Tag, Kind>, tag: Tag)
    requires Books(shown, expo, refLoads, loads, next, 0, {}) && ExposTold(expo, tree, events, kinds)
    requires tag in expo && HearsExpo(tree, tag) && expo[tag].main.loading != 0
    ensures !expo[tag].told && ExpoPhase(TraceOf(events, tag)).Loading? && expo[tag].resized.loading == 0
  {
  }

  lemma LoadingUntold(
      shown: map<Tag, Shown>, expo: map<Tag, ExpoShown>, refLoads: map<Id, int>, loads: map<Id, Fetch>, next: Id,
      tag: Tag)
    requires Books(shown, expo, refLoads, loads, next, 0, {}) && tag in expo
    ensures expo[tag].main.loading != 0 ==> !expo[tag].told
  {
  }

  lemma KeyBooks(
      shown: map<Tag, Shown>, expo: map<Tag, ExpoShown>, refLoads: map<Id, int>, loads: map<Id, Fetch>, next: Id,
      tag: Tag, key: Key)
    requires Books(shown, expo, refLoads, loads, next, 0, {}) && tag in expo && expo[tag].main.loading == 0
    ensures Books(shown, expo[tag := WithKey(expo[tag], key)], refLoads, loads, next, 0, {})
  {
    assert expo[tag := WithKey(expo[tag], key)] - {tag} == expo - {tag};
    ExpoBooks(shown, expo, expo[tag := WithKey(expo[tag], key)], refLoads, loads, next, 0, {}, {}, tag);
  }

  lemma SizeBooks(
      shown: map<Tag, Shown>, expo: map<Tag, ExpoShown>, refLoads: map<Id, int>, loads: map<Id, Fetch>, next: Id,
      tag: Tag, resized: Request)
    requires Books(shown, expo, refLoads, loads, next, 0, {}) && tag in expo
    requires expo[tag].resized.loading == 0 && resized.loading == 0
    ensures Books(shown, expo[tag := expo[tag].(resized := resized)], refLoads, loads, next, 0, {})
  {
    assert expo[tag := expo[tag].(resized := resized)] - {tag} == expo - {tag};
    ExpoBooks(shown, expo, expo[tag := expo[tag].(resized := resized)], refLoads, loads, next, 0, {}, {}, tag);
  }

  /** A view that waits for less was told what it was. */
  lemma WaitTold(
      shown: map<Tag, Shown>, was: map<Tag, ExpoShown>, tree: map<Tag, View>, events: map<Tag, seq<Event>>,
      kinds: map<Tag, Kind>, listens: Tag -> bool, broken: int -> bool, tag: Tag, e: ExpoShown)
    requires Known(tree, events, kinds) && ImagesTold(shown, tree, events, kinds, listens, broken)
    requires ExposTold(was, tree, events, kinds) && tag in was && e.told == was[tag].told && e.main.loading == 0
    requires HearsExpo(tree, tag) || !Idle(was[tag])
    ensures ExposTold(was[tag := e], tree, events, kinds)
  {
    assert was[tag := e] - {tag} == was - {tag};
    OneExpoTold(shown, was, was[tag := e], tree, events, events, kinds, listens, broken, tag);
  }

  // A load answered.

  /** The load answered is on its way no more; those who wait for it are about to be told. */
  lemma GoneBooks(
      shown: map<Tag, Shown>, expo: map<Tag, ExpoShown>, refLoads: map<Id, int>, loads: map<Id, Fetch>, next: Id,
      id: Id)
    requires Books(shown, expo, refLoads, loads, next, 0, {}) && id in loads
    ensures Books(shown, expo, refLoads, loads - {id}, next, id, {})
  {
  }

  /** Everyone who waited for it was told. */
  lemma ToldAllBooks(
      was: map<Tag, Shown>, shown: map<Tag, Shown>, waits: map<Tag, ExpoShown>, expo: map<Tag, ExpoShown>,
      refLoads: map<Id, int>, loads: map<Id, Fetch>, next: Id, gone: Id, tree: map<Tag, View>, picture: bool)
    requires Books(shown, expo, refLoads, loads, next, gone, {}) && gone != 0
    requires AllTold(was, shown, waits, expo, gone, tree, picture)
    ensures Books(shown, expo, refLoads - {gone}, loads, next, 0, {})
  {
  }

  lemma ShownAnsweredBooks(
      shown: map<Tag, Shown>, expo: map<Tag, ExpoShown>, refLoads: map<Id, int>, loads: map<Id, Fetch>, next: Id,
      gone: Id, tag: Tag, e: Shown)
    requires Books(shown, expo, refLoads, loads, next, gone, {}) && tag in shown && shown[tag].loading == gone
    requires e.loading == 0
    ensures Books(shown[tag := e], expo, refLoads, loads, next, gone, {})
  {
    assert shown[tag := e] - {tag} == shown - {tag};
    ShownBooks(shown, shown[tag := e], expo, refLoads, loads, next, gone, {}, tag);
  }

  function SourceOf(s: Shown): Source { Source(s.uri, s.scale, s.key) }

  function PartAnswered(e: ExpoShown, w: Which, id: Id, here: bool, picture: bool): ExpoShown {
    if Part(e, w).loading != id then e
    else if picture then if here then Given(e, w) else Stopped(e, w)
    else Refused(e, w)
  }

  function PartHears(e: ExpoShown, w: Which, id: Id, here: bool, picture: bool): seq<Event> {
    if here && Part(e, w).loading == id then Outcome(false, w, picture) else []
  }

  /** An expo-image view after an answer: its source first, then its placeholder, then its resized decode. */
  function ExpoAnswered(e: ExpoShown, id: Id, here: bool, picture: bool): ExpoShown {
    PartAnswered(PartAnswered(PartAnswered(e, Main, id, here, picture), Placeholder, id, here, picture), Resized, id,
      here, picture)
  }

  lemma AnsweredAwaitsNot(e: ExpoShown, id: Id, here: bool, picture: bool)
    requires id != 0
    ensures !ExpoAnswered(e, id, here, picture).Awaits(id)
    ensures !e.Awaits(id) ==> ExpoAnswered(e, id, here, picture) == e
  {
  }

  /** Who waits for an expo-image's load is an expo-image view, told nothing of its source yet if it waits for that. */
  lemma AwaitingExpo(
      shown: map<Tag, Shown>, expo: map<Tag, ExpoShown>, refLoads: map<Id, int>, loads: map<Id, Fetch>, next: Id,
      id: Id, tree: map<Tag, View>, events: map<Tag, seq<Event>>, kinds: map<Tag, Kind>, tag: Tag)
    requires Books(shown, expo, refLoads, loads, next, id, {}) && Known(tree, events, kinds)
    requires ExposTold(expo, tree, events, kinds) && tag in expo && expo[tag].Awaits(id) && id != 0
    ensures tag in tree ==> tree[tag].ExpoView?
    ensures expo[tag].main.loading == id ==>
      !expo[tag].told && (tag in tree ==> ExpoPhase(TraceOf(events, tag)).Loading?)
    ensures expo[tag].resized.loading == id ==> expo[tag].main.loading == 0
  {
  }

  lemma AnsweredHeard(
      was: map<Tag, Shown>, shown: map<Tag, Shown>, expo: map<Tag, ExpoShown>, tree: map<Tag, View>,
      before: map<Tag, seq<Event>>, events: map<Tag, seq<Event>>, kinds: map<Tag, Kind>, listens: Tag -> bool,
      broken: int -> bool, tag: Tag, picture: bool)
    requires Known(tree, before, kinds) && ImagesTold(was, tree, before, kinds, listens, broken)
    requires ExposTold(expo, tree, before, kinds) && tag in was && was[tag].loading != 0
    requires tag in shown && shown[tag] == was[tag].(loading := 0, told := true)
    requires Synced(was, shown, before, events, tag, SourceOf(shown[tag]), Hears(tree, listens, tag), picture)
    ensures Known(tree, events, kinds) && ImagesTold(shown, tree, events, kinds, listens, broken)
    ensures ExposTold(expo, tree, events, kinds)
  {
    if Hears(tree, listens, tag) {
      SyncedTold(was, shown, expo, tree, before, events, kinds, listens, broken, tag, SourceOf(shown[tag]), picture);
    } else {
      OneImageTold(was, shown, expo, tree, before, events, kinds, listens, broken, tag);
    }
  }

  function ShownAnswered(s: Shown, id: Id): Shown { if s.loading == id then s.(loading := 0, told := true) else s }

  function ImageHears(was: map<Tag, Shown>, id: Id, tag: Tag, hears: bool, picture: bool): seq<Event> {
    if hears && tag in was && was[tag].loading == id then SyncSays(true, was[tag].told, false, picture) else []
  }

  function DrawnBy(drawn: map<Tag, Picture>, tag: Tag): Option<Picture> {
    if tag in drawn then Some(drawn[tag]) else None
  }

  /** What a view that waited draws after an answer: its picture; nothing, if there is none and none came before. */
  function DrawsAfter(prior: Option<Picture>, told: bool, here: bool, answer: Option<Picture>): Option<Picture> {
    if answer.Some? then if here then answer else prior
    else if told then prior else None
  }

  function ImageDraws(
      was: map<Tag, Shown>, drew: map<Tag, Picture>, id: Id, tag: Tag, here: bool, answer: Option<Picture>):
    Option<Picture>
  {
    if tag in was && was[tag].loading == id then DrawsAfter(DrawnBy(drew, tag), was[tag].told, here, answer)
    else DrawnBy(drew, tag)
  }

  /** Every Image view but those `left` told of an answer. */
  ghost predicate ImagesAnswered(
      was: map<Tag, Shown>, before: map<Tag, seq<Event>>, shown: map<Tag, Shown>, events: map<Tag, seq<Event>>,
      left: set<Tag>, id: Id, tree: map<Tag, View>, listens: Tag -> bool, picture: bool) {
    shown.Keys == was.Keys &&
    (forall tag :: tag in shown ==> shown[tag] == if tag in left then was[tag] else ShownAnswered(was[tag], id)) &&
    (forall tag :: TraceOf(events, tag) ==
       TraceOf(before, tag) + if tag in left then [] else ImageHears(was, id, tag, Hears(tree, listens, tag), picture))
  }

  /** What the views then draw. */
  ghost predicate ImagesDrawn(
      was: map<Tag, Shown>, drew: map<Tag, Picture>, drawn: map<Tag, Picture>, left: set<Tag>, id: Id,
      tree: map<Tag, View>,
      answer: Option<Picture>) {
    forall tag :: DrawnBy(drawn, tag) ==
      if tag in left then DrawnBy(drew, tag) else ImageDraws(was, drew, id, tag, tag in tree, answer)
  }

  lemma ImagesUnanswered(
      was: map<Tag, Shown>, before: map<Tag, seq<Event>>, id: Id, tree: map<Tag, View>, listens: Tag -> bool,
      picture: bool)
    ensures ImagesAnswered(was, before, was, before, was.Keys, id, tree, listens, picture)
  {
    hide SyncSays;
    forall tag ensures TraceOf(before, tag) + [] == TraceOf(before, tag) {
    }
  }

  lemma ImagesUndrawn(was: map<Tag, Shown>, drew: map<Tag, Picture>, id: Id, tree: map<Tag, View>,
      answer: Option<Picture>)
    ensures ImagesDrawn(was, drew, drew, was.Keys, id, tree, answer)
  {
  }

  lemma ImageAnswered(
      first: map<Tag, Shown>, earliest: map<Tag, seq<Event>>, was: map<Tag, Shown>, before: map<Tag, seq<Event>>,
      shown: map<Tag, Shown>, events: map<Tag, seq<Event>>, left: set<Tag>, id: Id, tree: map<Tag, View>,
      listens: Tag -> bool, picture: bool, tag: Tag)
    requires ImagesAnswered(first, earliest, was, before, left, id, tree, listens, picture)
    requires tag in left && tag in was && shown == was[tag := ShownAnswered(was[tag], id)]
    requires SaidTo(before, events, tag)
    requires TraceOf(events, tag) == TraceOf(before, tag) + ImageHears(was, id, tag, Hears(tree, listens, tag), picture)
    ensures ImagesAnswered(first, earliest, shown, events, left - {tag}, id, tree, listens, picture)
  {
    hide SyncSays, ShownAnswered;
    forall t ensures t != tag ==> TraceOf(events, t) == TraceOf(before, t) {
    }
    assert TraceOf(before, tag) == TraceOf(earliest, tag);
    assert was[tag] == first[tag];
  }

  lemma ImageDrawn(
      first: map<Tag, Shown>, blank: map<Tag, Picture>, was: map<Tag, Shown>, drew: map<Tag, Picture>,
      drawn: map<Tag, Picture>, left: set<Tag>, id: Id, tree: map<Tag, View>, answer: Option<Picture>, tag: Tag)
    requires ImagesDrawn(first, blank, drew, left, id, tree, answer) && tag in left
    requires tag in first && tag in was && was[tag] == first[tag]
    requires DrawnBy(drawn, tag) == ImageDraws(was, drew, id, tag, tag in tree, answer)
    requires forall t :: t != tag ==> DrawnBy(drawn, t) == DrawnBy(drew, t)
    ensures ImagesDrawn(first, blank, drawn, left - {tag}, id, tree, answer)
  {
    hide DrawsAfter, DrawnBy;
  }

  function ExpoHears(was: map<Tag, ExpoShown>, id: Id, tag: Tag, here: bool, picture: bool): seq<Event> {
    if here && tag in was && was[tag].main.loading == id then Outcome(false, Main, picture) else []
  }

  /** Every expo-image view but those `left` told of an answer. */
  ghost predicate ExposAnswered(
      was: map<Tag, ExpoShown>, before: map<Tag, seq<Event>>, expo: map<Tag, ExpoShown>, events: map<Tag, seq<Event>>,
      left: set<Tag>, id: Id, tree: map<Tag, View>, picture: bool) {
    expo.Keys == was.Keys &&
    (forall tag :: tag in expo ==>
       expo[tag] == if tag in left then was[tag] else ExpoAnswered(was[tag], id, tag in tree, picture)) &&
    (forall tag :: TraceOf(events, tag) ==
       TraceOf(before, tag) + if tag in left then [] else ExpoHears(was, id, tag, tag in tree, picture))
  }

  lemma ExposUnanswered(
      was: map<Tag, ExpoShown>, before: map<Tag, seq<Event>>, id: Id, tree: map<Tag, View>, picture: bool)
    ensures ExposAnswered(was, before, was, before, was.Keys, id, tree, picture)
  {
    forall tag ensures TraceOf(before, tag) + [] == TraceOf(before, tag) {
    }
  }

  lemma SaidToOthers(was: map<Tag, seq<Event>>, events: map<Tag, seq<Event>>, tag: Tag)
    requires SaidTo(was, events, tag)
    ensures forall t :: t != tag ==> TraceOf(events, t) == TraceOf(was, t)
  {
  }

  lemma SameHears(a: map<Tag, ExpoShown>, b: map<Tag, ExpoShown>, id: Id, tag: Tag, here: bool, picture: bool)
    requires tag in a && tag in b && a[tag] == b[tag]
    ensures ExpoHears(a, id, tag, here, picture) == ExpoHears(b, id, tag, here, picture)
  {
  }

  lemma OneExpoAnswered(
      first: map<Tag, ExpoShown>, earliest: map<Tag, seq<Event>>, was: map<Tag, ExpoShown>,
      before: map<Tag, seq<Event>>, expo: map<Tag, ExpoShown>, events: map<Tag, seq<Event>>, left: set<Tag>, id: Id,
      tree: map<Tag, View>, picture: bool, tag: Tag)
    requires ExposAnswered(first, earliest, was, before, left, id, tree, picture) && tag in left && tag in was
    requires expo == was[tag := ExpoAnswered(was[tag], id, tag in tree, picture)] && SaidTo(before, events, tag)
    requires TraceOf(events, tag) == TraceOf(before, tag) + ExpoHears(was, id, tag, tag in tree, picture)
    ensures ExposAnswered(first, earliest, expo, events, left - {tag}, id, tree, picture)
  {
    hide ExpoAnswered, Outcome, ExpoHears, TraceOf;
    SaidToOthers(before, events, tag);
    SameHears(was, first, id, tag, tag in tree, picture);
    assert TraceOf(before, tag) == TraceOf(earliest, tag) + [] == TraceOf(earliest, tag);
  }

  /** An ImageRef answered: held with its picture, or gone with its error; if it was not released before. */
  predicate RefAnswered(
      refLoads: map<Id, int>, was: map<int, Option<Picture>>, refs: map<int, Option<Picture>>,
      before: map<int, Option<Picture>>, settled: map<int, Option<Picture>>, id: Id, answer: Option<Picture>) {
    if id in refLoads && refLoads[id] in was then
      var ref := refLoads[id];
      ref !in before && settled == before[ref := answer] &&
        refs == if answer.Some? then was[ref := answer] else was - {ref}
    else settled == before && refs == was
  }

  lemma StillGone(
      shown: map<Tag, Shown>, expo: map<Tag, ExpoShown>, refLoads: map<Id, int>, loads: map<Id, Fetch>, next: Id,
      gone: Id)
    requires Books(shown, expo, refLoads, loads, next, gone, {})
    ensures gone !in loads
  {
  }

  lemma FewerSince(before: map<Id, Fetch>, loads: map<Id, Fetch>, next: Id)
    requires Fewer(loads, before) && forall id :: id in before ==> 0 < id <= next
    ensures NoSecond(before, next, loads, next)
  {
  }

  /** Who hears of an answer: the views that waited for it, and nobody else. */
  ghost predicate ImagesToldOf(
      shown: map<Tag, Shown>, expo: map<Tag, ExpoShown>, before: map<Tag, seq<Event>>, events: map<Tag, seq<Event>>,
      id: Id,
      tree: map<Tag, View>, listens: Tag -> bool, picture: bool) {
    forall tag :: TraceOf(events, tag) == TraceOf(before, tag) +
      (ImageHears(shown, id, tag, Hears(tree, listens, tag), picture) + ExpoHears(expo, id, tag, tag in tree, picture))
  }

  /** After an answer, every view as it was told, and none waiting for it. */
  ghost predicate AllTold(
      was: map<Tag, Shown>, shown: map<Tag, Shown>, waits: map<Tag, ExpoShown>, expo: map<Tag, ExpoShown>, id: Id,
      tree: map<Tag, View>, picture: bool) {
    shown.Keys == was.Keys && expo.Keys == waits.Keys &&
    (forall tag :: tag in shown ==> shown[tag] == ShownAnswered(was[tag], id) && shown[tag].loading != id) &&
    (forall tag :: tag in expo ==>
      expo[tag] == ExpoAnswered(waits[tag], id, tag in tree, picture) && !expo[tag].Awaits(id))
  }

  lemma NobodyAwaits(
      was: map<Tag, Shown>, shown: map<Tag, Shown>, waits: map<Tag, ExpoShown>, expo: map<Tag, ExpoShown>,
      before: map<Tag, seq<Event>>, between: map<Tag, seq<Event>>, events: map<Tag, seq<Event>>, id: Id,
      tree: map<Tag, View>, listens: Tag -> bool, picture: bool)
    requires ImagesAnswered(was, before, shown, between, {}, id, tree, listens, picture)
    requires ExposAnswered(waits, between, expo, events, {}, id, tree, picture) && id != 0
    ensures AllTold(was, shown, waits, expo, id, tree, picture)
  {
    hide ExpoAnswered, ImageHears, ExpoHears;
    forall tag | tag in expo ensures !expo[tag].Awaits(id) {
      AnsweredAwaitsNot(waits[tag], id, tag in tree, picture);
    }
  }

  lemma ToldOfBoth(
      was: map<Tag, Shown>, shown: map<Tag, Shown>, waits: map<Tag, ExpoShown>, expo: map<Tag, ExpoShown>,
      before: map<Tag, seq<Event>>, between: map<Tag, seq<Event>>, events: map<Tag, seq<Event>>, id: Id,
      tree: map<Tag, View>, listens: Tag -> bool, picture: bool)
    requires ImagesAnswered(was, before, shown, between, {}, id, tree, listens, picture)
    requires ExposAnswered(waits, between, expo, events, {}, id, tree, picture)
    ensures ImagesToldOf(was, waits, before, events, id, tree, listens, picture)
  {
    forall tag ensures TraceOf(events, tag) == TraceOf(before, tag) +
      (ImageHears(was, id, tag, Hears(tree, listens, tag), picture) + ExpoHears(waits, id, tag, tag in tree, picture))
    {
      ToldOfOne(was, shown, waits, expo, before, between, events, id, tree, listens, picture, tag);
    }
  }

  lemma ToldOfOne(
      was: map<Tag, Shown>, shown: map<Tag, Shown>, waits: map<Tag, ExpoShown>, expo: map<Tag, ExpoShown>,
      before: map<Tag, seq<Event>>, between: map<Tag, seq<Event>>, events: map<Tag, seq<Event>>, id: Id,
      tree: map<Tag, View>, listens: Tag -> bool, picture: bool, tag: Tag)
    requires ImagesAnswered(was, before, shown, between, {}, id, tree, listens, picture)
    requires ExposAnswered(waits, between, expo, events, {}, id, tree, picture)
    ensures TraceOf(events, tag) == TraceOf(before, tag) +
      (ImageHears(was, id, tag, Hears(tree, listens, tag), picture) + ExpoHears(waits, id, tag, tag in tree, picture))
  {
    hide ImageHears, ExpoHears, ShownAnswered, ExpoAnswered, TraceOf, Hears;
    assert TraceOf(events, tag) == TraceOf(between, tag) + ExpoHears(waits, id, tag, tag in tree, picture);
    assert TraceOf(between, tag) == TraceOf(before, tag) + ImageHears(was, id, tag, Hears(tree, listens, tag), picture);
  }

  // What arrived of a load.

  function ExpoProgress(expo: map<Tag, ExpoShown>, id: Id, total: nat, tag: Tag, here: bool): seq<Event> {
    if here && total != 0 && tag in expo && expo[tag].main.loading == id && !expo[tag].told then [Progress] else []
  }

  function ImageProgress(shown: map<Tag, Shown>, id: Id, tag: Tag, hears: bool): seq<Event> {
    if hears && tag in shown && shown[tag].loading == id && !shown[tag].told then [Progress] else []
  }

  ghost predicate ProgressToldOf(
      shown: map<Tag, Shown>, expo: map<Tag, ExpoShown>, before: map<Tag, seq<Event>>, events: map<Tag, seq<Event>>,
      id: Id,
      total: nat, tree: map<Tag, View>, listens: Tag -> bool) {
    forall tag :: TraceOf(events, tag) == TraceOf(before, tag) +
      (ExpoProgress(expo, id, total, tag, tag in tree) + ImageProgress(shown, id, tag, Hears(tree, listens, tag)))
  }

  ghost predicate ExpoProgressed(
      expo: map<Tag, ExpoShown>, before: map<Tag, seq<Event>>, events: map<Tag, seq<Event>>, left: set<Tag>, id: Id,
      total: nat, tree: map<Tag, View>) {
    forall tag :: TraceOf(events, tag) ==
      TraceOf(before, tag) + if tag in left then [] else ExpoProgress(expo, id, total, tag, tag in tree)
  }

  ghost predicate ImageProgressed(
      shown: map<Tag, Shown>, before: map<Tag, seq<Event>>, events: map<Tag, seq<Event>>, left: set<Tag>, id: Id,
      tree: map<Tag, View>, listens: Tag -> bool) {
    forall tag :: TraceOf(events, tag) ==
      TraceOf(before, tag) + if tag in left then [] else ImageProgress(shown, id, tag, Hears(tree, listens, tag))
  }

  lemma ExpoUnprogressed(expo: map<Tag, ExpoShown>, before: map<Tag, seq<Event>>, id: Id, total: nat,
      tree: map<Tag, View>)
    ensures ExpoProgressed(expo, before, before, expo.Keys, id, total, tree)
  {
    forall tag ensures TraceOf(before, tag) + [] == TraceOf(before, tag) {
    }
  }

  lemma ImageUnprogressed(
      shown: map<Tag, Shown>, before: map<Tag, seq<Event>>, id: Id, tree: map<Tag, View>, listens: Tag -> bool)
    ensures ImageProgressed(shown, before, before, shown.Keys, id, tree, listens)
  {
    forall tag ensures TraceOf(before, tag) + [] == TraceOf(before, tag) {
    }
  }

  lemma OneExpoProgressed(
      expo: map<Tag, ExpoShown>, earliest: map<Tag, seq<Event>>, before: map<Tag, seq<Event>>,
      events: map<Tag, seq<Event>>, left: set<Tag>, id: Id, total: nat, tree: map<Tag, View>, tag: Tag)
    requires ExpoProgressed(expo, earliest, before, left, id, total, tree) && tag in left
    requires SaidTo(before, events, tag)
    requires TraceOf(events, tag) == TraceOf(before, tag) + ExpoProgress(expo, id, total, tag, tag in tree)
    ensures ExpoProgressed(expo, earliest, events, left - {tag}, id, total, tree)
  {
    hide ExpoProgress;
    forall t ensures t != tag ==> TraceOf(events, t) == TraceOf(before, t) {
    }
    assert TraceOf(before, tag) == TraceOf(earliest, tag);
  }

  lemma OneImageProgressed(
      shown: map<Tag, Shown>, earliest: map<Tag, seq<Event>>, before: map<Tag, seq<Event>>,
      events: map<Tag, seq<Event>>, left: set<Tag>, id: Id, tree: map<Tag, View>, listens: Tag -> bool, tag: Tag)
    requires ImageProgressed(shown, earliest, before, left, id, tree, listens) && tag in left
    requires SaidTo(before, events, tag)
    requires TraceOf(events, tag) == TraceOf(before, tag) + ImageProgress(shown, id, tag, Hears(tree, listens, tag))
    ensures ImageProgressed(shown, earliest, events, left - {tag}, id, tree, listens)
  {
    hide ImageProgress;
    forall t ensures t != tag ==> TraceOf(events, t) == TraceOf(before, t) {
    }
    assert TraceOf(before, tag) == TraceOf(earliest, tag);
  }

  lemma ProgressBoth(
      shown: map<Tag, Shown>, expo: map<Tag, ExpoShown>, before: map<Tag, seq<Event>>, between: map<Tag, seq<Event>>,
      events: map<Tag, seq<Event>>, id: Id, total: nat, tree: map<Tag, View>, listens: Tag -> bool)
    requires ExpoProgressed(expo, before, between, {}, id, total, tree)
    requires ImageProgressed(shown, between, events, {}, id, tree, listens)
    ensures ProgressToldOf(shown, expo, before, events, id, total, tree, listens)
  {
    hide ExpoProgress, ImageProgress, TraceOf, Hears;
    forall tag ensures TraceOf(events, tag) == TraceOf(before, tag) +
      (ExpoProgress(expo, id, total, tag, tag in tree) + ImageProgress(shown, id, tag, Hears(tree, listens, tag)))
    {
      assert TraceOf(events, tag) == TraceOf(between, tag) + ImageProgress(shown, id, tag, Hears(tree, listens, tag));
      assert TraceOf(between, tag) == TraceOf(before, tag) + ExpoProgress(expo, id, total, tag, tag in tree);
    }
  }

  lemma ExpoProgressTold(
      shown: map<Tag, Shown>, expo: map<Tag, ExpoShown>, tree: map<Tag, View>, events: map<Tag, seq<Event>>,
      kinds: map<Tag, Kind>, listens: Tag -> bool, broken: int -> bool, tag: Tag)
    requires Known(tree, events, kinds) && ImagesTold(shown, tree, events, kinds, listens, broken)
    requires ExposTold(expo, tree, events, kinds) && tag in tree && tag in expo
    requires expo[tag].main.loading != 0 && !expo[tag].told
    ensures var now := Said(events, tag, [Progress]);
            Known(tree, now, kinds) && ImagesTold(shown, tree, now, kinds, listens, broken) &&
              ExposTold(expo, tree, now, kinds)
  {
    PhaseMore(TraceOf(events, tag), Progress);
    OneExpoTold(shown, expo, expo, tree, events, Said(events, tag, [Progress]), kinds, listens, broken, tag);
  }

  lemma ImageProgressTold(
      shown: map<Tag, Shown>, expo: map<Tag, ExpoShown>, tree: map<Tag, View>, events: map<Tag, seq<Event>>,
      kinds: map<Tag, Kind>, listens: Tag -> bool, broken: int -> bool, tag: Tag)
    requires Known(tree, events, kinds) && ImagesTold(shown, tree, events, kinds, listens, broken)
    requires ExposTold(expo, tree, events, kinds) && tag in shown && !shown[tag].told && Hears(tree, listens, tag)
    ensures var now := Said(events, tag, [Progress]);
            Known(tree, now, kinds) && ImagesTold(shown, tree, now, kinds, listens, broken) &&
              ExposTold(expo, tree, now, kinds)
  {
    PhaseMore(TraceOf(events, tag), Progress);
    OneImageTold(shown, shown, expo, tree, events, Said(events, tag, [Progress]), kinds, listens, broken, tag);
  }

  // What one view is brought to by a sync, from what it was.

  lemma Elsewhere<T>(was: map<Tag, T>, now: map<Tag, T>, tag: Tag, t: Tag)
    requires now - {tag} == was - {tag} && t != tag
    ensures (t in now <==> t in was) && (t in now ==> now[t] == was[t])
  {
    assert (t in now <==> t in now - {tag}) && (t in was <==> t in was - {tag});
    if t in now { assert now[t] == (now - {tag})[t]; }
  }

  /** All that is kept of one view, what its JavaScript heard and what it draws. */
  datatype Slot = Slot(shown: Option<Shown>, expo: Option<ExpoShown>, said: seq<Event>, drawn: Option<Picture>)

  function SlotIn(tag: Tag, shown: map<Tag, Shown>, expo: map<Tag, ExpoShown>, events: map<Tag, seq<Event>>,
      drawn: map<Tag, Picture>): Slot
  {
    Slot(if tag in shown then Some(shown[tag]) else None, if tag in expo then Some(expo[tag]) else None,
         TraceOf(events, tag), DrawnBy(drawn, tag))
  }

  /**
   An Image view of a source: as it was, if it asks for nothing new; else the picture held, or what it drew as long
   as it waits, or nothing, told once.
   */
  predicate SourceSynced(
      was: Slot, now: Slot, source: Source, unreadable: bool, held: Option<Picture>, begins: bool, hears: bool) {
    if was.shown.Some? && was.shown.value.key == source.key && was.shown.value.uri == source.uri then now == was
    else
      now.expo == was.expo && now.shown.Some? &&
      var s, same := now.shown.value, was.shown.Some? && was.shown.value.uri == source.uri &&
                                      was.shown.value.scale == source.scale;
      var told, here := same && was.shown.value.told, !unreadable && held.Some?;
      s.key == source.key && s.uri == source.uri && s.scale == source.scale && s.told == (s.loading == 0 || told) &&
      (s.loading != 0 ==> !unreadable && !here) && (!unreadable && !here && begins ==> s.loading != 0) &&
      now.said == was.said + (if hears then SyncSays(same, told, s.loading != 0, here) else []) &&
      now.drawn == if here then held else if s.loading != 0 || told then was.drawn else None
  }

  /** What `SyncImage` promises is that, and leaves every other view as it was. */
  lemma OneShown(
      tag: Tag, source: Source, was: map<Tag, Shown>, shown: map<Tag, Shown>, before: map<Tag, seq<Event>>,
      events: map<Tag, seq<Event>>, drew: map<Tag, Picture>, drawn: map<Tag, Picture>, expo: map<Tag, ExpoShown>,
      unreadable: bool, held: Option<Picture>, begins: bool, hears: bool)
    requires !Anew(was, tag, source) ==> shown == was && events == before && drawn == drew
    requires Anew(was, tag, source) ==>
      var here := !unreadable && held.Some?;
      Synced(was, shown, before, events, tag, source, hears, here) &&
      (shown[tag].loading != 0 ==> !unreadable && !here) &&
      (!unreadable && !here && begins ==> shown[tag].loading != 0) &&
      drawn == if here then drew[tag := held.value]
               else if shown[tag].loading != 0 || ToldBefore(was, tag, source) then drew else drew - {tag}
    ensures SourceSynced(SlotIn(tag, was, expo, before, drew), SlotIn(tag, shown, expo, events, drawn), source,
                         unreadable, held, begins, hears)
    ensures forall t :: t != tag ==> SlotIn(t, shown, expo, events, drawn) == SlotIn(t, was, expo, before, drew)
  {
    assert TraceOf(before, tag) + [] == TraceOf(before, tag);
    forall t | t != tag ensures SlotIn(t, shown, expo, events, drawn) == SlotIn(t, was, expo, before, drew) {
      if Anew(was, tag, source) { Elsewhere(was, shown, tag, t); }
    }
  }

  /** An expo-image view, branch by branch; what it draws is made of layers, not of this picture. */
  predicate ExpoSynced(was: Slot, now: Slot, p: ExpoProps, atHand: bool) {
    var e := if was.expo.Some? then was.expo.value else NEW_EXPO;
    now.shown == was.shown && now.drawn == was.drawn && now.expo.Some? &&
    if e.locked && !e.reload then now.expo.value == e && now.said == was.said
    else if p.empty || (p.main.NoMain? && p.placeholder.None?) then now.expo.value == Cleared(e) && now.said == was.said
    else if AsksAnew(e, p) then
      ShownAnew(e, now.expo.value, p) &&
      now.said == was.said + [LoadStart] + if now.expo.value.told then Outcome(false, Main, atHand) else []
    else
      KeptOrResized(e, now.expo.value, p) &&
      now.said == was.said + if now.expo.value.told && !e.told then Outcome(false, Main, atHand) else []
  }

  /** What `SyncExpo` promises is that, and leaves every other view as it was. */
  lemma OneExpo(
      tag: Tag, shown: map<Tag, Shown>, was: map<Tag, ExpoShown>, expo: map<Tag, ExpoShown>,
      before: map<Tag, seq<Event>>, events: map<Tag, seq<Event>>, drawn: map<Tag, Picture>, p: ExpoProps, atHand: bool)
    requires SaidTo(before, events, tag) && tag in expo && expo == was[tag := expo[tag]]
    requires var e := if tag in was then was[tag] else NEW_EXPO;
             var now, said := expo[tag], TraceOf(before, tag);
             if e.locked && !e.reload then now == e && events == before
             else if p.empty || (p.main.NoMain? && p.placeholder.None?) then now == Cleared(e) && events == before
             else if AsksAnew(e, p)
             then ShownAnew(e, now, p) && TraceOf(events, tag) == said + [LoadStart] +
                    if now.told then Outcome(false, Main, atHand) else []
             else KeptOrResized(e, now, p) &&
                  TraceOf(events, tag) == said + if now.told && !e.told then Outcome(false, Main, atHand) else []
    ensures ExpoSynced(SlotIn(tag, shown, was, before, drawn), SlotIn(tag, shown, expo, events, drawn), p, atHand)
    ensures ExpoBrought(expo[tag], p) && expo - {tag} == was - {tag}
    ensures forall t :: t != tag ==> SlotIn(t, shown, expo, events, drawn) == SlotIn(t, shown, was, before, drawn)
  {
    SyncedBrought(SlotIn(tag, shown, was, before, drawn), SlotIn(tag, shown, expo, events, drawn), p, atHand);
  }

  // Every view brought to what it asks for.

  predicate ExpoBrought(e: ExpoShown, p: ExpoProps) {
    (e.locked && !e.reload) ||
    (if p.empty || (p.main.NoMain? && p.placeholder.None?) then e == Cleared(e)
     else e.main.identity == MainIdentity(p.main) && e.placeholder.identity == PlaceholderIdentity(p) && !e.reload)
  }

  lemma SyncedBrought(was: Slot, now: Slot, p: ExpoProps, atHand: bool)
    requires ExpoSynced(was, now, p, atHand)
    ensures ExpoBrought(now.expo.value, p)
  {
  }

  predicate ViewBrought(v: View, tag: Tag, shown: map<Tag, Shown>, expo: map<Tag, ExpoShown>) {
    match v
    case ImageView(None) => tag !in shown
    case ImageView(Some(source)) => tag in shown && shown[tag].key == source.key && shown[tag].uri == source.uri
    case ExpoView(props) => tag in expo && ExpoBrought(expo[tag], props)
    case OtherView => true
  }

  /** What is kept is kept of views of the tree, and every one but those `left` shows or waits for what it asks for. */
  ghost predicate AllBrought(tree: map<Tag, View>, left: set<Tag>, shown: map<Tag, Shown>, expo: map<Tag, ExpoShown>) {
    (forall tag :: tag in shown ==> tag in tree && tree[tag].ImageView?) &&
    (forall tag :: tag in expo ==> tag in tree && tree[tag].ExpoView?) &&
    (forall tag :: tag in tree && tag !in left ==> ViewBrought(tree[tag], tag, shown, expo))
  }

  lemma NoneBrought(tree: map<Tag, View>, shown: map<Tag, Shown>, expo: map<Tag, ExpoShown>)
    requires forall tag :: tag in shown ==> tag in tree && tree[tag].ImageView?
    requires forall tag :: tag in expo ==> tag in tree && tree[tag].ExpoView?
    ensures AllBrought(tree, tree.Keys, shown, expo)
  {
  }

  lemma OneBrought(
      tree: map<Tag, View>, left: set<Tag>, was: map<Tag, Shown>, waits: map<Tag, ExpoShown>, shown: map<Tag, Shown>,
      expo: map<Tag, ExpoShown>, tag: Tag)
    requires AllBrought(tree, left, was, waits) && tag in tree && ViewBrought(tree[tag], tag, shown, expo)
    requires shown - {tag} == was - {tag} && expo - {tag} == waits - {tag}
    requires (!tree[tag].ExpoView? ==> expo == waits) && (!tree[tag].ImageView? ==> shown == was)
    ensures AllBrought(tree, left - {tag}, shown, expo)
  {
    hide ExpoBrought;
    forall t | t != tag ensures (t in shown <==> t in was) && (t in expo <==> t in waits) {
      assert (t in shown <==> t in shown - {tag}) && (t in was <==> t in was - {tag});
      assert (t in expo <==> t in expo - {tag}) && (t in waits <==> t in waits - {tag});
    }
    forall t | t != tag && t in shown ensures shown[t] == was[t] {
      assert shown[t] == (shown - {tag})[t];
    }
    forall t | t != tag && t in expo ensures expo[t] == waits[t] {
      assert expo[t] == (expo - {tag})[t];
    }
  }

  lemma CommittedTold(
      shown: map<Tag, Shown>, expo: map<Tag, ExpoShown>, tree: map<Tag, View>, now: map<Tag, View>,
      events: map<Tag, seq<Event>>, kinds: map<Tag, Kind>, after: map<Tag, Kind>, listens: Tag -> bool,
      broken: int -> bool)
    requires Known(tree, events, kinds) && ImagesTold(shown, tree, events, kinds, listens, broken)
    requires ExposTold(expo, tree, events, kinds)
    requires after == kinds + map tag | tag in now :: KindOf(now[tag])
    requires forall tag :: tag in now ==> if tag in tree then KindOf(now[tag]) == KindOf(tree[tag]) else tag !in kinds
    ensures Known(now, events, after) && ImagesTold(shown, now, events, after, listens, broken)
    ensures ExposTold(expo, now, events, after)
  {
  }

  lemma ReleasedOnce(
      refLoads: map<Id, int>, settled: map<int, Option<Picture>>, refs: map<int, Option<Picture>>, nextRef: nat,
      released: set<int>)
    requires RefsOnce(refLoads, settled, refs, nextRef)
    ensures RefsOnce(refLoads, settled, refs - released, nextRef)
  {
  }

  lemma NoneBack(before: map<Id, Fetch>, next: Id, loads: map<Id, Fetch>)
    requires NoSecond(before, next, loads, next) && forall id :: id in loads ==> id <= next
    ensures forall id :: id in loads ==> id in before
  {
  }

  lemma FlagBooks(
      shown: map<Tag, Shown>, expo: map<Tag, ExpoShown>, refLoads: map<Id, int>, loads: map<Id, Fetch>, next: Id,
      tag: Tag, e: ExpoShown)
    requires Books(shown, expo, refLoads, loads, next, 0, {}) && tag in expo
    requires e == expo[tag].(locked := e.locked, reload := e.reload)
    ensures Books(shown, expo[tag := e], refLoads, loads, next, 0, {})
  {
    assert expo[tag := e] - {tag} == expo - {tag};
    ExpoBooks(shown, expo, expo[tag := e], refLoads, loads, next, 0, {}, {}, tag);
  }

  lemma FlagTold(
      expo: map<Tag, ExpoShown>, tree: map<Tag, View>, events: map<Tag, seq<Event>>, kinds: map<Tag, Kind>, tag: Tag,
      e: ExpoShown)
    requires ExposTold(expo, tree, events, kinds) && tag in expo
    requires e == expo[tag].(locked := e.locked, reload := e.reload)
    ensures ExposTold(expo[tag := e], tree, events, kinds)
  {
  }

  lemma NewRef(
      shown: map<Tag, Shown>, expo: map<Tag, ExpoShown>, refLoads: map<Id, int>, loads: map<Id, Fetch>, next: Id,
      settled: map<int, Option<Picture>>, refs: map<int, Option<Picture>>, nextRef: nat)
    requires Books(shown, expo, refLoads, loads, next, 0, {}) && RefsOnce(refLoads, settled, refs, nextRef)
    ensures next + 1 !in loads && next + 1 !in refLoads && nextRef + 1 !in settled && nextRef + 1 !in refs
  {
  }

  lemma RefBooks(
      shown: map<Tag, Shown>, expo: map<Tag, ExpoShown>, refLoads: map<Id, int>, loads: map<Id, Fetch>, next: Id,
      fetch: Fetch, ref: int)
    requires Books(shown, expo, refLoads, loads, next, 0, {})
    ensures Books(shown, expo, refLoads[next + 1 := ref], loads[next + 1 := fetch], next + 1, 0, {})
    ensures Books(shown, expo, refLoads, loads, next + 1, 0, {})
  {
  }

  lemma RefBegun(
      refLoads: map<Id, int>, settled: map<int, Option<Picture>>, refs: map<int, Option<Picture>>, nextRef: nat, id: Id)
    requires RefsOnce(refLoads, settled, refs, nextRef)
    ensures RefsOnce(refLoads[id := nextRef + 1], settled, refs[nextRef + 1 := None], nextRef + 1)
    ensures RefsOnce(refLoads, settled[nextRef + 1 := None], refs, nextRef + 1)
  {
  }

  lemma TakenBack<V>(m: map<int, V>, key: int, value: V)
    requires key !in m
    ensures m[key := value] - {key} == m
  {
  }
}
