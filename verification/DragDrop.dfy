/** A client's drags: which target each is in, how the compositor is answered, and what becomes of a drop. */
module DragDrops {
  import DragEnds
  import opened DragLog
  import opened Optional

  const FILES := "files"
  const FILES_TYPE: Type := "application/x-oxyos-files"
  const FIELD_TYPES: seq<Type> := ["text/plain;charset=utf-8", "text/plain", "text/uri-list"]

  function LowerChar(c: char): char { if 'A' <= c <= 'Z' then (c as int + 32) as char else c }

  function Lower(text: string): string { seq(|text|, i requires 0 <= i < |text| => LowerChar(text[i])) }

  /** Letters alone change, each to its own small one. */
  lemma LowerIs()
    ensures Lower("ABCDEFGHIJKLMNOPQRSTUVWXYZ") == "abcdefghijklmnopqrstuvwxyz"
    ensures forall c: char :: c < 'A' || 'Z' < c ==> LowerChar(c) == c
  {
    assert forall i :: 0 <= i < 26 ==> "ABCDEFGHIJKLMNOPQRSTUVWXYZ"[i] == ('A' as int + i) as char;
  }

  /** What a kind may be offered as, in the order looked for; one not known here is taken to be a media type. */
  function KindTypes(kind: Kind): seq<Type> {
    if kind == FILES then ["text/uri-list"]
    else if kind == "url" then ["text/uri-list", "text/x-moz-url"]
    else if kind == "text" then ["text/plain;charset=utf-8", "text/plain"]
    else if kind == "html" then ["text/html"]
    else [Lower(kind)]
  }

  /**
   A drop target's props: the kinds it takes, whether it takes files of the types offered, its actions, and where
   it goes by a folder, the volume that is on, if it has one.
   */
  datatype Target = Target(kinds: seq<Kind>, takesFiles: bool, actions: seq<Action>, folder: Option<Volume>)

  type Volume = string

  /** A view under the point: a text input that takes drops, with what dragging over it says; or a drop target. */
  datatype Place = Place(view: Tag, field: bool, over: Option<bool>, target: Option<Target>)

  datatype Choice =
    | Nothing
    | Field(view: Tag, mime: Type, over: Option<bool>)
    | Zone(view: Tag, target: Target, kind: Kind, mime: Type)

  // The innermost target that takes what is offered.

  /** The first of the types offered that is the one wanted, as it was offered. */
  function OfferedAs(wanted: Type, types: seq<Type>): Option<Type> {
    if types == [] then None else if Lower(types[0]) == wanted then Some(types[0]) else OfferedAs(wanted, types[1..])
  }

  /** The first type of a list that is offered. */
  function FirstOffered(wanted: seq<Type>, types: seq<Type>): Option<Type> {
    if wanted == [] then None
    else if OfferedAs(wanted[0], types).Some? then OfferedAs(wanted[0], types)
    else FirstOffered(wanted[1..], types)
  }

  /** What a text input takes: text, as long as no files are dragged. */
  function FieldType(types: seq<Type>): Option<Type> {
    if OfferedAs(FILES_TYPE, types).Some? then None else FirstOffered(FIELD_TYPES, types)
  }

  predicate Carries(t: Target, kind: Kind, types: seq<Type>) {
    FirstOffered(KindTypes(kind), types).Some? && (kind == FILES ==> t.takesFiles)
  }

  /** The first kind of a target's that the drag carries. */
  function FirstKind(t: Target, kinds: seq<Kind>, types: seq<Type>): Option<Kind> {
    if kinds == [] then None
      else if Carries(t, kinds[0], types) then Some(kinds[0]) else FirstKind(t, kinds[1..], types)
  }

  /** What a view takes of a drag, if anything. */
  function Takes(p: Place, types: seq<Type>): Choice {
    if p.field then
      match FieldType(types)
      case None => Nothing
      case Some(mime) => Field(p.view, mime, p.over)
    else
      match p.target
      case None => Nothing
      case Some(t) =>
        match FirstKind(t, t.kinds, types)
        case None => Nothing
        case Some(kind) =>
          match FirstOffered(KindTypes(kind), types)
          case None => Nothing
          case Some(mime) => Zone(p.view, t, kind, mime)
  }

  /** The views under the point, the innermost first. */
  method FindTarget(path: seq<Place>, types: seq<Type>) returns (choice: Choice)
    ensures choice == Nothing ==> forall i :: 0 <= i < |path| ==> Takes(path[i], types) == Nothing
    ensures choice != Nothing ==>
      exists i :: 0 <= i < |path| && Takes(path[i], types) == choice &&
        forall j :: 0 <= j < i ==> Takes(path[j], types) == Nothing
    ensures choice == Innermost(path, types)
  {
    var at := 0;
    choice := Nothing;
    while at < |path| && choice == Nothing
      invariant 0 <= at <= |path|
      invariant choice == Nothing ==> Innermost(path, types) == Innermost(path[at..], types)
      invariant choice == Nothing ==> forall j :: 0 <= j < at ==> Takes(path[j], types) == Nothing
      invariant choice != Nothing ==> choice == Innermost(path, types)
      invariant choice != Nothing ==>
        exists i :: 0 <= i < |path| && Takes(path[i], types) == choice &&
          forall j :: 0 <= j < i ==> Takes(path[j], types) == Nothing
    {
      choice := Takes(path[at], types);
      at := at + 1;
    }
  }

  function Innermost(path: seq<Place>, types: seq<Type>): Choice {
    if path == [] then Nothing
      else if Takes(path[0], types) != Nothing then Takes(path[0], types) else Innermost(path[1..], types)
  }

  /** What files dropped into a folder come to: a move on its own volume, a copy onto another. */
  function FolderPreference(volumes: seq<Volume>, folder: Volume): Option<Action> {
    if volumes == [] || folder == "" then None
    else if forall v :: v in volumes ==> v == folder then Some(Move)
    else Some(Copy)
  }

  /** What the compositor is answered for it. */
  function AnswerOf(c: Choice, volumes: seq<Volume>): Answer {
    match c
    case Nothing => Answer(None, {}, None)
    case Field(_, mime, over) =>
      if over.None? then Answer(None, {}, None)
      else Answer(Some(mime), {Copy, Move}, Some(if over.value then Move else Copy))
    case Zone(_, t, kind, mime) =>
      if t.actions == [] then Answer(Some(mime), {Copy}, Some(Copy))
      else
        var actions := set a | a in t.actions;
        var both := Copy in actions && Move in actions;
        var finder :=
          if kind == FILES && both && t.folder.Some? then FolderPreference(volumes, t.folder.value) else None;
        Answer(Some(mime), actions, if finder.Some? then finder else Some(t.actions[0]))
  }

  // The answer a drag has to have, in its own terms.

  predicate IsOffered(types: seq<Type>, wanted: Type) { exists mime :: mime in types && Lower(mime) == wanted }

  /** A type wanted is offered as this one, the first that is it but for capitals. */
  predicate FirstAs(types: seq<Type>, wanted: Type, mime: Type) {
    exists n :: 0 <= n < |types| && types[n] == mime && Lower(types[n]) == wanted &&
      forall m :: 0 <= m < n ==> Lower(types[m]) != wanted
  }

  predicate EitherAs(types: seq<Type>, better: Type, other: Type, mime: Type) {
    if IsOffered(types, better) then FirstAs(types, better, mime) else FirstAs(types, other, mime)
  }

  /** What is dragged is taken as this type for a kind. */
  predicate KindAs(kind: Kind, types: seq<Type>, mime: Type) {
    match kind
    case "files" => FirstAs(types, "text/uri-list", mime)
    case "url" => EitherAs(types, "text/uri-list", "text/x-moz-url", mime)
    case "text" => EitherAs(types, "text/plain;charset=utf-8", "text/plain", mime)
    case "html" => FirstAs(types, "text/html", mime)
    case _ => FirstAs(types, Lower(kind), mime)
  }

  /** A text input takes it as text, or else as a link. */
  predicate TextAs(types: seq<Type>, mime: Type) {
    if IsOffered(types, "text/plain;charset=utf-8") || IsOffered(types, "text/plain")
    then EitherAs(types, "text/plain;charset=utf-8", "text/plain", mime)
    else FirstAs(types, "text/uri-list", mime)
  }

  /** A drop target is dragged over with something of a kind it takes, files only where it takes those. */
  ghost predicate KindOffered(t: Target, kind: Kind, types: seq<Type>) {
    (exists mime :: KindAs(kind, types, mime)) && (kind == "files" ==> t.takesFiles)
  }

  ghost predicate TakesNothing(p: Place, types: seq<Type>) {
    if p.field then IsOffered(types, "application/x-oxyos-files") || !exists mime :: TextAs(types, mime)
    else p.target.Some? ==> forall kind :: kind in p.target.value.kinds ==> !KindOffered(p.target.value, kind, types)
  }

  /** The answer over a text input: its text moves within it and is copied from anywhere else. */
  ghost predicate FieldAnswered(over: Option<bool>, types: seq<Type>, a: Answer) {
    if over.None? then a == Answer(None, {}, None)
    else
      a.mime.Some? && TextAs(types, a.mime.value) &&
      a.actions == {Copy, Move} &&
      (a.preferred == Some(Move) <==> over.value) && (a.preferred == Some(Copy) <==> !over.value)
  }

  /** The answer of a zone for the first of its kinds offered, as the type that kind is taken as. */
  ghost predicate ZoneAnswered(t: Target, types: seq<Type>, volumes: seq<Volume>, a: Answer) {
    exists k :: 0 <= k < |t.kinds| &&
      KindOffered(t, t.kinds[k], types) && (forall j :: 0 <= j < k ==> !KindOffered(t, t.kinds[j], types)) &&
      a.mime.Some? && KindAs(t.kinds[k], types, a.mime.value) && ActionsAnswered(t, t.kinds[k], volumes, a)
  }

  /**
   Its actions, a copy if it has none; preferred the first, but for files into its folder, where both are allowed, a
   move exactly if they are all on that folder's volume.
   */
  predicate ActionsAnswered(t: Target, kind: Kind, volumes: seq<Volume>, a: Answer) {
    if t.actions == [] then a.actions == {Copy} && a.preferred == Some(Copy)
    else
      (forall x :: x in a.actions <==> x in t.actions) &&
      if kind == "files" && Copy in t.actions && Move in t.actions &&
         t.folder.Some? && t.folder.value != "" && volumes != []
      then (a.preferred == Some(Move) <==> forall v :: v in volumes ==> v == t.folder.value) &&
           (a.preferred == Some(Copy) <==> exists v :: v in volumes && v != t.folder.value)
      else a.preferred == Some(t.actions[0])
  }

  /** The innermost view that takes something is answered for; with none, there is no type and no action. */
  ghost predicate Answers(path: seq<Place>, types: seq<Type>, volumes: seq<Volume>, a: Answer) {
    if forall i :: 0 <= i < |path| ==> TakesNothing(path[i], types) then a == Answer(None, {}, None)
    else
      exists i :: 0 <= i < |path| && !TakesNothing(path[i], types) &&
        (forall j :: 0 <= j < i ==> TakesNothing(path[j], types)) &&
        if path[i].field then FieldAnswered(path[i].over, types, a)
        else path[i].target.Some? && ZoneAnswered(path[i].target.value, types, volumes, a)
  }

  lemma {:induction false} OfferedAsFirst(wanted: Type, types: seq<Type>)
    ensures OfferedAs(wanted, types).Some? <==> IsOffered(types, wanted)
    ensures OfferedAs(wanted, types).Some? ==> FirstAs(types, wanted, OfferedAs(wanted, types).value)
    ensures forall mime :: FirstAs(types, wanted, mime) ==> IsOffered(types, wanted)
  {
    hide Lower;
    if types != [] && Lower(types[0]) != wanted {
      var rest := types[1..];
      OfferedAsFirst(wanted, rest);
      if IsOffered(types, wanted) {
        var mime :| mime in types && Lower(mime) == wanted;
        assert mime in rest;
      }
      if OfferedAs(wanted, rest).Some? {
        var mime := OfferedAs(wanted, rest).value;
        var n :| 0 <= n < |rest| && rest[n] == mime && Lower(rest[n]) == wanted &&
          forall m :: 0 <= m < n ==> Lower(rest[m]) != wanted;
        assert types[n + 1] == mime;
        forall m | 0 <= m < n + 1 ensures Lower(types[m]) != wanted {
          if m > 0 { assert types[m] == rest[m - 1]; }
        }
      }
    }
  }

  lemma KindTaken(kind: Kind, types: seq<Type>)
    ensures FirstOffered(KindTypes(kind), types).Some? ==>
      KindAs(kind, types, FirstOffered(KindTypes(kind), types).value)
    ensures FirstOffered(KindTypes(kind), types).Some? <==> exists mime :: KindAs(kind, types, mime)
  {
    hide Lower, OfferedAs;
    var wanted := KindTypes(kind);
    OfferedAsFirst(wanted[0], types);
    assert FirstOffered(wanted[1..], types) == if |wanted| == 1 then None else OfferedAs(wanted[1], types);
    if |wanted| > 1 { OfferedAsFirst(wanted[1], types); }
  }

  lemma TextTaken(types: seq<Type>)
    ensures FirstOffered(FIELD_TYPES, types).Some? ==> TextAs(types, FirstOffered(FIELD_TYPES, types).value)
    ensures FirstOffered(FIELD_TYPES, types).Some? <==> exists mime :: TextAs(types, mime)
  {
    hide Lower, OfferedAs;
    OfferedAsFirst(FIELD_TYPES[0], types);
    OfferedAsFirst(FIELD_TYPES[1], types);
    OfferedAsFirst(FIELD_TYPES[2], types);
    assert FirstOffered(FIELD_TYPES[2..], types) == OfferedAs(FIELD_TYPES[2], types);
    assert FIELD_TYPES[1..][1..] == FIELD_TYPES[2..];
  }

  lemma {:induction false} FirstKindAt(t: Target, kinds: seq<Kind>, types: seq<Type>) returns (k: nat)
    ensures FirstKind(t, kinds, types).None? <==> forall kind :: kind in kinds ==> !KindOffered(t, kind, types)
    ensures FirstKind(t, kinds, types).Some? ==>
      k < |kinds| && kinds[k] == FirstKind(t, kinds, types).value && KindOffered(t, kinds[k], types) &&
      forall j :: 0 <= j < k ==> !KindOffered(t, kinds[j], types)
  {
    hide KindAs, KindTypes, FirstOffered;
    k := 0;
    if kinds != [] {
      KindTaken(kinds[0], types);
      assert Carries(t, kinds[0], types) <==> KindOffered(t, kinds[0], types);
      if !Carries(t, kinds[0], types) {
        var more := FirstKindAt(t, kinds[1..], types);
        assert forall kind :: kind in kinds <==> kind == kinds[0] || kind in kinds[1..];
        k := more + 1;
      }
    }
  }

  lemma FieldTakes(p: Place, types: seq<Type>, volumes: seq<Volume>)
    requires p.field
    ensures TakesNothing(p, types) <==> Takes(p, types) == Nothing
    ensures !TakesNothing(p, types) ==> FieldAnswered(p.over, types, AnswerOf(Takes(p, types), volumes))
  {
    hide TextAs, FirstOffered, OfferedAs;
    OfferedAsFirst(FILES_TYPE, types);
    TextTaken(types);
  }

  lemma ZoneTakes(p: Place, types: seq<Type>, volumes: seq<Volume>)
    requires !p.field
    ensures TakesNothing(p, types) <==> Takes(p, types) == Nothing
    ensures !TakesNothing(p, types) ==>
      p.target.Some? && ZoneAnswered(p.target.value, types, volumes, AnswerOf(Takes(p, types), volumes))
  {
    hide KindAs, KindTypes, FirstOffered;
    if p.target.Some? {
      var t := p.target.value;
      var k := FirstKindAt(t, t.kinds, types);
      if FirstKind(t, t.kinds, types).Some? {
        KindTaken(t.kinds[k], types);
        assert ActionsAnswered(t, t.kinds[k], volumes, AnswerOf(Takes(p, types), volumes));
      }
    }
  }

  /** What the innermost choice is answered with is the answer the drag has to have. */
  lemma {:induction false} InnermostAnswers(path: seq<Place>, types: seq<Type>, volumes: seq<Volume>)
    ensures Answers(path, types, volumes, AnswerOf(Innermost(path, types), volumes))
  {
    hide FieldAnswered, ZoneAnswered, TakesNothing, Takes, AnswerOf;
    if path == [] {
      NothingAnswered(volumes);
    } else {
      if path[0].field { FieldTakes(path[0], types, volumes); } else { ZoneTakes(path[0], types, volumes); }
      if TakesNothing(path[0], types) {
        InnermostAnswers(path[1..], types, volumes);
        AnswersPast(path, types, volumes, AnswerOf(Innermost(path[1..], types), volumes));
      }
    }
  }

  lemma AnswersPast(path: seq<Place>, types: seq<Type>, volumes: seq<Volume>, a: Answer)
    requires path != [] && TakesNothing(path[0], types) && Answers(path[1..], types, volumes, a)
    ensures Answers(path, types, volumes, a)
  {
    hide FieldAnswered, ZoneAnswered, TakesNothing;
    assert forall i :: 0 < i < |path| ==> path[i] == path[1..][i - 1];
    if i :| 0 <= i < |path| && !TakesNothing(path[i], types) { assert !TakesNothing(path[1..][i - 1], types); }
  }

  lemma NothingAnswered(volumes: seq<Volume>)
    ensures AnswerOf(Nothing, volumes) == Answer(None, {}, None)
  {
  }

  /** A drop zone is answered with a type the drag offers, of a kind it takes, and an action it allows. */
  lemma AnswerAllowed(p: Place, types: seq<Type>, volumes: seq<Volume>)
    requires Takes(p, types).Zone?
    ensures var c, a := Takes(p, types), AnswerOf(Takes(p, types), volumes);
            c.kind in c.target.kinds && a.mime == Some(c.mime) &&
            c.mime in types && Lower(c.mime) in KindTypes(c.kind) &&
            a.preferred.Some? && a.preferred.value in a.actions &&
            (c.target.actions != [] ==> forall x :: x in a.actions <==> x in c.target.actions)
  {
    var t := p.target.value;
    FirstKindIn(t, t.kinds, types);
    FirstOfferedIn(KindTypes(FirstKind(t, t.kinds, types).value), types);
    if t.actions != [] { assert t.actions[0] in t.actions; }
  }

  lemma {:induction false} FirstKindIn(t: Target, kinds: seq<Kind>, types: seq<Type>)
    requires FirstKind(t, kinds, types).Some?
    ensures FirstKind(t, kinds, types).value in kinds
  {
    if !Carries(t, kinds[0], types) { FirstKindIn(t, kinds[1..], types); }
  }

  lemma {:induction false} FirstOfferedIn(wanted: seq<Type>, types: seq<Type>)
    requires FirstOffered(wanted, types).Some?
    ensures Lower(FirstOffered(wanted, types).value) in wanted && FirstOffered(wanted, types).value in types
  {
    hide Lower;
    OfferedAsFirst(wanted[0], types);
    if OfferedAs(wanted[0], types).None? { FirstOfferedIn(wanted[1..], types); }
  }

  // The drag over this client.

  datatype Offer = Offer(
    id: nat, expected: nat, types: seq<Type>, fileExpected: nat, fileTypes: nat, volumesExpected: nat,
    volumes: seq<Volume>,
    action: int, view: Option<Tag>, field: bool, answered: Option<Answer>)
  {
    predicate Complete() { |types| >= expected && fileTypes >= fileExpected && |volumes| >= volumesExpected }
  }

  /** A drop on its way: what it is for, and whether a text input takes its text. */
  datatype Receipt = Receipt(offer: nat, view: Option<Tag>, field: bool)

  /** What a receipt's pipes have come to. */
  datatype Outcome = Open | Whole | Failed

  datatype Presence = Outside | Over | Dropped | Delivered

  function Offers(rs: seq<Receipt>): multiset<nat> { multiset(seq(|rs|, i requires 0 <= i < |rs| => rs[i].offer)) }

  lemma OffersMore(rs: seq<Receipt>, r: Receipt)
    ensures Offers(rs + [r]) == Offers(rs) + multiset{r.offer}
  {
    assert seq(|rs + [r]|, i requires 0 <= i < |rs + [r]| => (rs + [r])[i].offer) ==
           seq(|rs|, i requires 0 <= i < |rs| => rs[i].offer) + [r.offer];
  }

  lemma OffersWithout(before: seq<Receipt>, r: Receipt, after: seq<Receipt>)
    ensures Offers(before + [r] + after) == Offers(before + after) + multiset{r.offer}
  {
    var a := seq(|before|, i requires 0 <= i < |before| => before[i].offer);
    var b := seq(|after|, i requires 0 <= i < |after| => after[i].offer);
    var all, rest := before + [r] + after, before + after;
    assert seq(|all|, i requires 0 <= i < |all| => all[i].offer) == a + [r.offer] + b;
    assert seq(|rest|, i requires 0 <= i < |rest| => rest[i].offer) == a + b;
  }

  /** The drop target JavaScript believes the drag is in; it hears nothing of text inputs. */
  function EnteredIn(offer: Option<Offer>): Option<Tag> {
    if offer.Some? && !offer.value.field then offer.value.view else None
  }

  function LeaveSays(entered: Option<Tag>, tree: set<Tag>): seq<Sent> {
    if entered.Some? then [Told(entered.value, DragLeave, entered.value in tree)] else []
  }

  function MoveSays(was: Option<Tag>, now: Option<Tag>, moved: bool, tree: set<Tag>): seq<Sent> {
    if now != was then
      LeaveSays(was, tree) + if now.Some? then [Told(now.value, DragEnter, now.value in tree)] else []
    else if now.Some? && moved then [Told(now.value, DragOver, now.value in tree)]
    else []
  }

  /** One drag, whatever is under it. */
  predicate SameDrag(o: Offer, p: Offer) { o == p.(view := o.view, field := o.field, answered := o.answered) }

  function ChoiceView(c: Choice): Option<Tag> { if c.Nothing? then None else Some(c.view) }

  /** The offer once what is under it is looked for again: nothing new until it is complete. */
  function Updated(o: Offer, path: seq<Place>): Offer {
    if !o.Complete() then o
    else
      var c := Innermost(path, o.types);
      o.(view := ChoiceView(c), field := c.Field?, answered := Some(AnswerOf(c, o.volumes)))
  }

  /** What is sent for it: an answer that is another one, and the target's events. */
  function UpdateSays(o: Offer, path: seq<Place>, moved: bool, tree: set<Tag>): seq<Sent> {
    if !o.Complete() then []
    else
      var now := Updated(o, path);
      (if o.answered == now.answered then [] else [Accepted(o.id, now.answered.value)]) +
      MoveSays(EnteredIn(Some(o)), EnteredIn(Some(now)), moved, tree)
  }

  class DragDrop {
    var offer: Option<Offer>
    var receiving: seq<Receipt>
    var presence: Presence
    var tree: set<Tag>
    var sent: seq<Sent>
    /** Every drop on this client there has been. */
    ghost var handled: multiset<nat>
    /** The drops, their receipts' ends and JavaScript's runs there have been. */
    ghost var history: seq<DragEnds.Happening>

    ghost predicate Valid()
      reads this
    {
      Agrees(offer, receiving, presence, SumOf(sent), handled) && Tracks(presence, |receiving|, history)
    }

    constructor ()
      ensures Valid() && offer == None && receiving == [] && presence == Outside && tree == {} && sent == [] &&
        handled == multiset{}
      ensures history == []
    {
      offer, receiving, presence, tree, sent := None, [], Outside, {}, [];
      handled, history := multiset{}, [];
    }

    method Send(e: Sent)
      modifies this`sent
      ensures sent == old(sent) + [e] && SumOf(sent) == Step(SumOf(old(sent)), e)
    {
      SumMore(sent, e);
      sent := sent + [e];
    }

    method Dispatch(view: Tag, telling: Telling)
      modifies this`sent
      ensures sent == old(sent) + [Told(view, telling, view in tree)]
      ensures SumOf(sent) == SumOf(old(sent)).(target := TargetStep(SumOf(old(sent)).target, view, telling))
    {
      Send(Told(view, telling, view in tree));
    }

    /** leave: the drag is over this client no more. */
    method Leave()
      requires Valid()
      modifies this`offer, this`sent
      ensures Valid() && offer == None && sent == old(sent) + LeaveSays(EnteredIn(old(offer)), tree)
      ensures SumOf(sent) == SumOf(old(sent)).(target := Nowhere)
    {
      hide SumOf;
      if offer.Some? && offer.value.view.Some? && !offer.value.field { Dispatch(offer.value.view.value, DragLeave); }
      offer := None;
    }

    /**
     update: nothing before the offer is complete; then the answer and the target events the choice under the point asks
     for.
     */
    method Update(path: seq<Place>, moved: bool)
      requires Valid()
      modifies this`offer, this`sent
      ensures Valid()
      ensures old(offer).None? ==> offer == None && sent == old(sent)
      ensures old(offer).Some? ==>
        offer == Some(Updated(old(offer).value, path)) &&
        sent == old(sent) + UpdateSays(old(offer).value, path, moved, tree)
      // And the answer is the one the drag has to have.
      ensures old(offer).Some? && old(offer).value.Complete() ==>
        var o := old(offer).value;
        offer.value.answered.Some? && Answers(path, o.types, o.volumes, offer.value.answered.value)
    {
      hide SumOf, Answers, AnswerOf, Innermost, Takes, MoveSays, Agrees, Tracks;
      if offer.None? || !offer.value.Complete() { return; }
      var choice := FindTarget(path, offer.value.types);
      InnermostAnswers(path, offer.value.types, offer.value.volumes);
      Settle(choice, AnswerOf(choice, offer.value.volumes), moved);
    }

    /** The drag answered and over what was found under it. */
    method Settle(choice: Choice, answer: Answer, moved: bool)
      requires Valid() && offer.Some?
      modifies this`offer, this`sent
      ensures Valid()
      ensures var o := old(offer).value;
        offer == Some(o.(view := ChoiceView(choice), field := choice.Field?, answered := Some(answer))) &&
        sent == old(sent) + (if o.answered == Some(answer) then [] else [Accepted(o.id, answer)]) +
          MoveSays(EnteredIn(old(offer)), EnteredIn(offer), moved, tree)
    {
      hide SumOf, MoveSays, Tracks;
      var was, now := EnteredIn(offer), if choice.Zone? then Some(choice.view) else None;
      Reply(answer);
      TellMove(was, now, moved);
      offer := Some(offer.value.(view := ChoiceView(choice), field := choice.Field?));
    }

    method TellMove(was: Option<Tag>, now: Option<Tag>, moved: bool)
      requires SumOf(sent).target == if was.Some? then In(was.value) else Nowhere
      modifies this`sent
      ensures sent == old(sent) + MoveSays(was, now, moved, tree)
      ensures SumOf(sent) == SumOf(old(sent)).(target := if now.Some? then In(now.value) else Nowhere)
    {
      hide SumOf;
      if now != was {
        if was.Some? { Dispatch(was.value, DragLeave); }
        if now.Some? { Dispatch(now.value, DragEnter); }
      } else if now.Some? && moved {
        Dispatch(now.value, DragOver);
      }
    }

    /** An answer is sent unless it is the last one sent for this offer. */
    method Reply(answer: Answer)
      requires Valid() && offer.Some?
      modifies this`offer, this`sent
      ensures Valid() && offer == Some(old(offer).value.(answered := Some(answer)))
      ensures sent == old(sent) +
        if old(offer).value.answered == Some(answer) then [] else [Accepted(offer.value.id, answer)]
      ensures SumOf(sent).target == SumOf(old(sent)).target
    {
      hide SumOf;
      if offer.value.answered == Some(answer) { return; }
      Send(Accepted(offer.value.id, answer));
      offer := Some(offer.value.(answered := Some(answer)));
    }

    // The compositor's events.

    predicate Of(id: nat)
      reads this`offer
    {
      offer.Some? && offer.value.id == id
    }

    method Enter(id: nat, expected: nat, fileExpected: nat, volumesExpected: nat, path: seq<Place>)
      requires Valid()
      modifies this`offer, this`presence, this`sent
      ensures Valid() && offer.Some? &&
        SameDrag(offer.value, Offer(id, expected, [], fileExpected, 0, volumesExpected, [], 0, None, false, None))
      ensures presence == if old(presence) == Outside then Over else old(presence)
      ensures old(sent) + LeaveSays(EnteredIn(old(offer)), tree) +
        (if old(presence) == Outside then [WindowEnter] else []) <= sent
      ensures !offer.value.Complete() ==> offer.value.answered == None && offer.value.view == None
      ensures offer.value.Complete() ==> offer.value.answered == Some(AnswerOf(Innermost(path, []), []))
      ensures var o := Offer(id, expected, [], fileExpected, 0, volumesExpected, [], 0, None, false, None);
              offer == Some(Updated(o, path)) &&
              sent == old(sent) + LeaveSays(EnteredIn(old(offer)), tree) +
                (if old(presence) == Outside then [WindowEnter] else []) + UpdateSays(o, path, true, tree)
    {
      hide SumOf, Answers, AnswerOf, Innermost, Takes, MoveSays, UpdateSays;
      Leave();
      offer := Some(Offer(id, expected, [], fileExpected, 0, volumesExpected, [], 0, None, false, None));
      if presence == Outside {
        presence := Over;
        Send(WindowEnter);
      }
      Update(path, true);
    }

    method OfferType(id: nat, mime: Type, path: seq<Place>)
      requires Valid()
      modifies this`offer, this`sent
      ensures Valid() && old(sent) <= sent
      ensures if old(Of(id)) && |old(offer).value.types| < old(offer).value.expected
              then offer.Some? && SameDrag(offer.value, old(offer).value.(types := old(offer).value.types + [mime])) &&
                   (offer.value.Complete() ==>
                     offer.value.answered == Some(AnswerOf(Innermost(path, offer.value.types), offer.value.volumes)))
              else offer == old(offer) && sent == old(sent)
      ensures old(Of(id)) && |old(offer).value.types| < old(offer).value.expected ==>
        var o := old(offer).value.(types := old(offer).value.types + [mime]);
        offer == Some(Updated(o, path)) && sent == old(sent) + UpdateSays(o, path, true, tree)
    {
      hide SumOf;
      if offer.Some? && offer.value.id == id && |offer.value.types| < offer.value.expected {
        offer := Some(offer.value.(types := offer.value.types + [mime]));
        Update(path, true);
      }
    }

    /** A file's type told to its last chunk. */
    method OfferFileType(id: nat, path: seq<Place>)
      requires Valid()
      modifies this`offer, this`sent
      ensures Valid() && old(sent) <= sent
      ensures if old(Of(id)) && old(offer).value.fileTypes < old(offer).value.fileExpected
              then offer.Some? &&
                   SameDrag(offer.value, old(offer).value.(fileTypes := old(offer).value.fileTypes + 1)) &&
                   (offer.value.Complete() ==>
                     offer.value.answered == Some(AnswerOf(Innermost(path, offer.value.types), offer.value.volumes)))
              else offer == old(offer) && sent == old(sent)
      ensures old(Of(id)) && old(offer).value.fileTypes < old(offer).value.fileExpected ==>
        var o := old(offer).value.(fileTypes := old(offer).value.fileTypes + 1);
        offer == Some(Updated(o, path)) && sent == old(sent) + UpdateSays(o, path, true, tree)
    {
      hide SumOf;
      if offer.Some? && offer.value.id == id && offer.value.fileTypes < offer.value.fileExpected {
        offer := Some(offer.value.(fileTypes := offer.value.fileTypes + 1));
        Update(path, true);
      }
    }

    /** A volume of its files told to its last chunk. */
    method OfferVolume(id: nat, volume: Volume, path: seq<Place>)
      requires Valid()
      modifies this`offer, this`sent
      ensures Valid() && old(sent) <= sent
      ensures if old(Of(id)) && |old(offer).value.volumes| < old(offer).value.volumesExpected
              then offer.Some? &&
                   SameDrag(offer.value, old(offer).value.(volumes := old(offer).value.volumes + [volume])) &&
                   (offer.value.Complete() ==>
                     offer.value.answered == Some(AnswerOf(Innermost(path, offer.value.types), offer.value.volumes)))
              else offer == old(offer) && sent == old(sent)
      ensures old(Of(id)) && |old(offer).value.volumes| < old(offer).value.volumesExpected ==>
        var o := old(offer).value.(volumes := old(offer).value.volumes + [volume]);
        offer == Some(Updated(o, path)) && sent == old(sent) + UpdateSays(o, path, true, tree)
    {
      hide SumOf;
      if offer.Some? && offer.value.id == id && |offer.value.volumes| < offer.value.volumesExpected {
        offer := Some(offer.value.(volumes := offer.value.volumes + [volume]));
        Update(path, true);
      }
    }

    method Motion(id: nat, path: seq<Place>)
      requires Valid()
      modifies this`offer, this`sent
      ensures Valid() && old(sent) <= sent
      ensures !old(Of(id)) ==> offer == old(offer) && sent == old(sent)
      ensures old(Of(id)) ==> offer.Some? && SameDrag(offer.value, old(offer).value)
      ensures old(Of(id)) && offer.value.Complete() ==>
        var c := Innermost(path, offer.value.types);
        offer.value.answered == Some(AnswerOf(c, offer.value.volumes)) && offer.value.view == ChoiceView(c) &&
        offer.value.field == c.Field?
      ensures old(Of(id)) ==>
        offer == Some(Updated(old(offer).value, path)) &&
        sent == old(sent) + UpdateSays(old(offer).value, path, true, tree)
    {
      hide SumOf;
      if offer.Some? && offer.value.id == id { Update(path, true); }
    }

    method ActionChanged(id: nat, action: int)
      requires Valid()
      modifies this`offer, this`sent
      ensures Valid()
      ensures if old(Of(id)) && old(offer).value.action != action
              then offer == Some(old(offer).value.(action := action)) &&
                   sent == old(sent) + MoveSays(EnteredIn(offer), EnteredIn(offer), true, tree)
              else offer == old(offer) && sent == old(sent)
    {
      hide SumOf;
      if offer.Some? && offer.value.id == id && offer.value.action != action {
        offer := Some(offer.value.(action := action));
        if offer.value.view.Some? && !offer.value.field { Dispatch(offer.value.view.value, DragOver); }
      }
    }

    method LeaveEvent(id: nat)
      requires Valid()
      modifies this`offer, this`sent
      ensures Valid()
      ensures if old(Of(id)) then offer == None && sent == old(sent) + LeaveSays(EnteredIn(old(offer)), tree)
              else offer == old(offer) && sent == old(sent)
    {
      if offer.Some? && offer.value.id == id { Leave(); }
    }

    /** The tree changed: the compositor is answered again, the target under the drag not told it is moved over. */
    method Mounted(now: set<Tag>, path: seq<Place>)
      requires Valid()
      modifies this`tree, this`offer, this`sent
      ensures Valid() && tree == now && old(sent) <= sent
      ensures old(offer).None? ==> offer == None && sent == old(sent)
      ensures offer.Some? && offer.value.Complete() ==>
        offer.value.answered == Some(AnswerOf(Innermost(path, offer.value.types), offer.value.volumes))
      ensures old(offer).Some? ==>
        offer == Some(Updated(old(offer).value, path)) &&
        sent == old(sent) + UpdateSays(old(offer).value, path, false, now)
    {
      hide SumOf;
      tree := now;
      if offer.Some? { Update(path, false); }
    }

    /**
     drop: `pipe` says a text input's text is received through one; `target` is the drop target's props, none if it
     went or takes nothing now.
     */
    method DropEvent(id: nat, action: int, pipe: bool, target: Option<Target>)
      requires Valid() && (target.Some? ==> offer.Some? && offer.value.view.Some?)
      modifies this`offer, this`receiving, this`presence, this`sent, this`handled, this`history
      ensures Valid()
      ensures !old(Of(id)) ==>
        offer == old(offer) && receiving == old(receiving) && presence == old(presence) && sent == old(sent) &&
        handled == old(handled) && history == old(history)
      ensures old(Of(id)) ==>
        var received := if old(offer).value.field then pipe else target.Some?;
        history == old(history) + [if received then DragEnds.Received else DragEnds.AtOnce]
      ensures old(Of(id)) ==>
        var o := old(offer).value;
        offer == None && handled == old(handled) + multiset{id} &&
        if (if o.field then pipe else target.Some?)
        then receiving == old(receiving) + [Receipt(id, o.view, o.field)] && presence == Dropped &&
             sent == old(sent) + LeaveSays(EnteredIn(old(offer)), tree)
        else receiving == old(receiving) && presence == Delivered &&
             sent == old(sent) + [Finished(id)] + LeaveSays(EnteredIn(old(offer)), tree)
    {
      hide SumOf;
      if offer.None? || offer.value.id != id { return; }
      offer := Some(offer.value.(action := action));
      if offer.value.field {
        DropOnField(pipe);
      } else if target.None? {
        DropOnNothing();
      } else {
        DropOnTarget();
      }
    }

    method DropOnField(pipe: bool)
      requires Valid() && offer.Some? && offer.value.field
      modifies this`offer, this`receiving, this`presence, this`sent, this`handled, this`history
      ensures Valid() && offer == None && handled == old(handled) + multiset{old(offer).value.id}
      ensures history == old(history) + [if pipe then DragEnds.Received else DragEnds.AtOnce]
      ensures if pipe
              then receiving == old(receiving) + [Receipt(old(offer).value.id, old(offer).value.view, true)] &&
                   presence == Dropped && sent == old(sent)
              else receiving == old(receiving) && presence == Delivered &&
                   sent == old(sent) + [Finished(old(offer).value.id)]
    {
      hide SumOf, Agrees, Tracks;
      var o := offer.value;
      TracksDrop(presence, |receiving|, history, pipe);
      handled, history := handled + multiset{o.id}, history + [if pipe then DragEnds.Received else DragEnds.AtOnce];
      if !pipe {
        AgreesFinished(offer, receiving, presence, SumOf(sent), old(handled));
        Send(Finished(o.id));
        offer := None;
        presence := Delivered;
        return;
      }
      AgreesReceived(offer, receiving, presence, SumOf(sent), old(handled));
      receiving := receiving + [Receipt(o.id, o.view, true)];
      offer := None;
      presence := Dropped;
    }

    /** A drop no target takes is finished at once, without a receipt. */
    method DropOnNothing()
      requires Valid() && offer.Some? && !offer.value.field
      modifies this`offer, this`presence, this`sent, this`handled, this`history
      ensures Valid() && offer == None && presence == Delivered &&
        handled == old(handled) + multiset{old(offer).value.id}
      ensures history == old(history) + [DragEnds.AtOnce]
      ensures sent == old(sent) + [Finished(old(offer).value.id)] + LeaveSays(EnteredIn(old(offer)), tree)
    {
      hide SumOf, Agrees, Tracks;
      AgreesFinished(offer, receiving, presence, SumOf(sent), handled);
      TracksDrop(presence, |receiving|, history, false);
      handled, history := handled + multiset{offer.value.id}, history + [DragEnds.AtOnce];
      Send(Finished(offer.value.id));
      presence := Delivered;
      Leave();
    }

    /** A drop on a target has a receipt, and its target is told of a leave before anything else. */
    method DropOnTarget()
      requires Valid() && offer.Some? && !offer.value.field && offer.value.view.Some?
      modifies this`offer, this`receiving, this`presence, this`sent, this`handled, this`history
      ensures history == old(history) + [DragEnds.Received]
      ensures Valid() && offer == None && presence == Dropped && handled == old(handled) + multiset{old(offer).value.id}
      ensures receiving == old(receiving) + [Receipt(old(offer).value.id, old(offer).value.view, false)]
      ensures sent == old(sent) + LeaveSays(EnteredIn(old(offer)), tree)
    {
      hide SumOf, Agrees, Tracks;
      var receipt := Receipt(offer.value.id, offer.value.view, false);
      AgreesReceived(offer, receiving, presence, SumOf(sent), handled);
      TracksDrop(presence, |receiving|, history, true);
      handled, history := handled + multiset{offer.value.id}, history + [DragEnds.Received];
      EnteredWatch(offer, receiving, presence, SumOf(sent), old(handled));
      Dispatch(offer.value.view.value, DragLeave);
      offer := None;
      receiving := receiving + [receipt];
      presence := Dropped;
    }

    /** deliver: each receipt that has ended is given to its target and finished, the others kept. */
    method Deliver(outcomes: seq<Outcome>)
      requires Valid() && |outcomes| == |receiving|
      modifies this`receiving, this`presence, this`sent, this`history
      ensures Valid()
      ensures |receiving| <= |old(receiving)|
      ensures history == old(history) + seq(|old(receiving)| - |receiving|, _ => DragEnds.Closed)
      ensures receiving == Kept(old(receiving), outcomes)
      ensures sent == old(sent) + Closings(old(receiving), outcomes, tree)
      ensures presence ==
        if old(presence) == Dropped && Kept(old(receiving), outcomes) != old(receiving) then Delivered
        else old(presence)
    {
      hide SumOf, Agrees, Closing, Delivering, Tracks;
      var all := receiving;
      var left: nat := 0;
      DeliverStart(all, outcomes, sent, presence, tree);
      for i := 0 to |all|
        invariant Valid() &&
          Delivering(all, outcomes, i, left, receiving, old(sent), sent, old(presence), presence, tree)
        invariant |receiving| <= |all| && history == old(history) + seq(|all| - |receiving|, _ => DragEnds.Closed)
      {
        DeliverStep(all, outcomes, i, left, receiving, old(sent), sent, old(presence), presence, tree);
        if outcomes[i] == Open {
          left := left + 1;
        } else {
          ghost var before := |receiving|;
          Close(left);
          assert |receiving| == before - 1;
        }
      }
      DeliverEnd(all, outcomes, left, receiving, old(sent), sent, old(presence), presence, tree);
    }

    /** A receipt ended: given to its target, and finished. */
    method Close(i: nat)
      requires Valid() && i < |receiving|
      modifies this`receiving, this`presence, this`sent, this`history
      ensures Valid() && history == old(history) + [DragEnds.Closed] &&
        receiving == old(receiving)[..i] + old(receiving)[i + 1..]
      ensures sent == old(sent) + Closing(old(receiving)[i], tree)
      ensures presence == if old(presence) == Dropped then Delivered else old(presence)
    {
      hide SumOf, Agrees, Tracks;
      var r := receiving[i];
      AgreesClosed(offer, receiving, presence, SumOf(sent), handled, i);
      TracksClosed(presence, |receiving|, history);
      history := history + [DragEnds.Closed];
      if !r.field && r.view.Some? { Dispatch(r.view.value, Drop); }
      Send(Finished(r.offer));
      receiving := receiving[..i] + receiving[i + 1..];
      if presence == Dropped { presence := Delivered; }
    }

    /** With the presence still `Over` and no offer any more, the window is told of an exit, once. */
    method Observed()
      requires Valid()
      modifies this`presence, this`sent
      ensures Valid()
      ensures if old(presence) == Over && offer.None?
              then presence == Outside && sent == old(sent) + [WindowExit(false)]
              else presence == old(presence) && sent == old(sent)
    {
      hide SumOf;
      if presence == Over && offer.None? {
        presence := Outside;
        Send(WindowExit(false));
      }
    }

    /** A delivered drop's end is told, and then the enter of a drag that came meanwhile. */
    method RanJavaScript()
      requires Valid()
      modifies this`presence, this`sent, this`history
      ensures Valid() && history == old(history) + [DragEnds.Ran]
      ensures if old(presence) != Delivered then presence == old(presence) && sent == old(sent)
              else if offer.Some? then presence == Over && sent == old(sent) + [WindowExit(true), WindowEnter]
              else presence == Outside && sent == old(sent) + [WindowExit(true)]
    {
      hide SumOf, Tracks;
      TracksRan(presence, |receiving|, history);
      history := history + [DragEnds.Ran];
      if presence != Delivered { return; }
      presence := Outside;
      Send(WindowExit(true));
      if offer.Some? {
        presence := Over;
        Send(WindowEnter);
      }
    }

    /** Every run's events are in their order, and every drop is finished once, or still on its way. */
    lemma EveryEventInOrder()
      requires Valid()
      ensures TargetsMatch(sent) && WindowMatches(sent) && FinishesIn(sent) + Offers(receiving) == handled
    {
      SumTargets(sent);
      SumWindow(sent);
      SumFinishes(sent);
    }

    /**
     JavaScript run now would have the window told its drag ended before one of its drops exactly when a drop is
     delivered and another received still: after what happened, exactly what DragEnds says ends it early.
     */
    lemma EndIsEarlyExactly()
      requires Valid()
      ensures var h, n := history + [DragEnds.Ran], |history|;
              (presence == Delivered && receiving != []) <==>
              DragEnds.PendingAt(h, n) > 0 && exists e :: DragEnds.Settled(h, e, n)
      ensures presence == Delivered && receiving != [] <==> DragEnds.EndsEarly(history + [DragEnds.Ran], |history|)
    {
      DragEnds.AfterMore(history, DragEnds.Ran, |history|);
      DragEnds.EndsEarlyExactly(history + [DragEnds.Ran], |history|);
    }

    /** So with no drop while another was being received, the end told waited for its drop. */
    lemma EndWaits()
      requires Valid() && DragEnds.OneAtATime(history) && presence == Delivered
      ensures receiving == []
    {
      DragEnds.OnePending(history, |history|);
    }
  }

  /** What is kept of a window's drag follows from what happened. */
  ghost predicate Tracks(presence: Presence, pending: nat, h: seq<DragEnds.Happening>) {
    DragEnds.PhaseAt(h, |h|) == PhaseOf(presence) && DragEnds.PendingAt(h, |h|) == pending
  }

  function PhaseOf(presence: Presence): DragEnds.Phase {
    match presence
    case Dropped => DragEnds.Dropped
    case Delivered => DragEnds.Delivered
    case _ => DragEnds.Quiet
  }

  lemma TracksDrop(presence: Presence, pending: nat, h: seq<DragEnds.Happening>, received: bool)
    requires Tracks(presence, pending, h)
    ensures received ==> Tracks(Dropped, pending + 1, h + [DragEnds.Received])
    ensures !received ==> Tracks(Delivered, pending, h + [DragEnds.AtOnce])
  {
    DragEnds.AfterMore(h, DragEnds.Received, |h|);
    DragEnds.AfterMore(h, DragEnds.AtOnce, |h|);
  }

  lemma TracksClosed(presence: Presence, pending: nat, h: seq<DragEnds.Happening>)
    requires Tracks(presence, pending, h) && pending > 0
    ensures Tracks(if presence == Dropped then Delivered else presence, pending - 1, h + [DragEnds.Closed])
  {
    DragEnds.AfterMore(h, DragEnds.Closed, |h|);
  }

  lemma TracksRan(presence: Presence, pending: nat, h: seq<DragEnds.Happening>)
    requires Tracks(presence, pending, h)
    ensures var now := h + [DragEnds.Ran];
            if presence == Delivered then Tracks(Outside, pending, now) && Tracks(Over, pending, now)
              else Tracks(presence, pending, now)
  {
    DragEnds.AfterMore(h, DragEnds.Ran, |h|);
  }

  function Kept(rs: seq<Receipt>, outcomes: seq<Outcome>): seq<Receipt>
    requires |outcomes| == |rs|
  {
    if rs == [] then []
    else Kept(rs[..|rs| - 1], outcomes[..|rs| - 1]) + if outcomes[|rs| - 1] == Open then [rs[|rs| - 1]] else []
  }

  function Closing(r: Receipt, tree: set<Tag>): seq<Sent> {
    (if !r.field && r.view.Some? then [Told(r.view.value, Drop, r.view.value in tree)] else []) + [Finished(r.offer)]
  }

  function Closings(rs: seq<Receipt>, outcomes: seq<Outcome>, tree: set<Tag>): seq<Sent>
    requires |outcomes| == |rs|
  {
    if rs == [] then []
    else Closings(rs[..|rs| - 1], outcomes[..|rs| - 1], tree) +
         if outcomes[|rs| - 1] == Open then [] else Closing(rs[|rs| - 1], tree)
  }

  lemma {:induction false} KeptMore(rs: seq<Receipt>, outcomes: seq<Outcome>, r: Receipt, o: Outcome, tree: set<Tag>)
    requires |outcomes| == |rs|
    ensures Kept(rs + [r], outcomes + [o]) == Kept(rs, outcomes) + if o == Open then [r] else []
    ensures Closings(rs + [r], outcomes + [o], tree) ==
      Closings(rs, outcomes, tree) + if o == Open then [] else Closing(r, tree)
  {
    assert (rs + [r])[..|rs|] == rs && (outcomes + [o])[..|rs|] == outcomes;
  }

  lemma {:induction false} KeptAll(rs: seq<Receipt>, outcomes: seq<Outcome>)
    requires |outcomes| == |rs|
    ensures |Kept(rs, outcomes)| <= |rs| && (|Kept(rs, outcomes)| == |rs| <==> Kept(rs, outcomes) == rs)
  {
    if rs != [] {
      KeptAll(rs[..|rs| - 1], outcomes[..|rs| - 1]);
      assert rs == rs[..|rs| - 1] + [rs[|rs| - 1]];
    }
  }

  /** What is kept agrees with what was sent, and every drop there was is finished or on its way, and that once. */
  ghost predicate Agrees(offer: Option<Offer>, receiving: seq<Receipt>, presence: Presence, s: Sum,
      handled: multiset<nat>) {
    s.target == (if EnteredIn(offer).Some? then In(EnteredIn(offer).value) else Nowhere) &&
    (offer.Some? ==> presence != Outside) &&
    (presence == Dropped ==> receiving != []) &&
    (if presence == Outside then s.window == Ended else s.window.Entered?) &&
    (presence == Delivered ==> s.window.finished) &&
    s.finished + Offers(receiving) == handled &&
    (offer.Some? && offer.value.answered.Some? ==>
      offer.value.id in s.answers && s.answers[offer.value.id] == offer.value.answered.value)
  }

  /** The first receipts looked at: the open ones kept, the ended ones closed in order. */
  ghost predicate Delivering(
      all: seq<Receipt>, outcomes: seq<Outcome>, i: nat, left: nat, receiving: seq<Receipt>, before: seq<Sent>,
      sent: seq<Sent>, was: Presence, presence: Presence, tree: set<Tag>)
    requires |outcomes| == |all|
  {
    i <= |all| && left == |Kept(all[..i], outcomes[..i])| && receiving == Kept(all[..i], outcomes[..i]) + all[i..] &&
      left <= i &&
    sent == before + Closings(all[..i], outcomes[..i], tree) &&
      presence == if was == Dropped && left < i then Delivered else was
  }

  lemma DeliverStart(all: seq<Receipt>, outcomes: seq<Outcome>, sent: seq<Sent>, presence: Presence, tree: set<Tag>)
    requires |outcomes| == |all|
    ensures Delivering(all, outcomes, 0, 0, all, sent, sent, presence, presence, tree)
  {
  }

  lemma DeliverStep(
      all: seq<Receipt>, outcomes: seq<Outcome>, i: nat, left: nat, receiving: seq<Receipt>, before: seq<Sent>,
      sent: seq<Sent>, was: Presence, presence: Presence, tree: set<Tag>)
    requires |outcomes| == |all| && i < |all|
    requires Delivering(all, outcomes, i, left, receiving, before, sent, was, presence, tree)
    ensures left < |receiving| && receiving[left] == all[i]
    ensures if outcomes[i].Open?
            then Delivering(all, outcomes, i + 1, left + 1, receiving, before, sent, was, presence, tree)
            else Delivering(all, outcomes, i + 1, left, receiving[..left] + receiving[left + 1..], before,
                 sent + Closing(all[i], tree),
                            was, if presence == Dropped then Delivered else presence, tree)
  {
    hide Closings, Closing;
    var kept := Kept(all[..i], outcomes[..i]);
    assert all[..i + 1] == all[..i] + [all[i]] && outcomes[..i + 1] == outcomes[..i] + [outcomes[i]];
    KeptMore(all[..i], outcomes[..i], all[i], outcomes[i], tree);
    hide Kept;
    SplitAt(kept, all, i);
  }

  lemma SplitAt(kept: seq<Receipt>, all: seq<Receipt>, i: nat)
    requires i < |all|
    ensures var receiving := kept + all[i..];
            |kept| < |receiving| && receiving[|kept|] == all[i] && receiving == kept + [all[i]] + all[i + 1..] &&
            receiving[..|kept|] + receiving[|kept| + 1..] == kept + all[i + 1..]
  {
    assert all[i..] == [all[i]] + all[i + 1..];
  }

  lemma {:induction false} DeliverEnd(
      all: seq<Receipt>, outcomes: seq<Outcome>, left: nat, receiving: seq<Receipt>, before: seq<Sent>, sent: seq<Sent>,
      was: Presence, presence: Presence, tree: set<Tag>)
    requires |outcomes| == |all| && Delivering(all, outcomes, |all|, left, receiving, before, sent, was, presence, tree)
    ensures receiving == Kept(all, outcomes) && sent == before + Closings(all, outcomes, tree)
    ensures presence == if was == Dropped && Kept(all, outcomes) != all then Delivered else was
  {
    hide Closings;
    assert all[..|all|] == all && outcomes[..|outcomes|] == outcomes;
    KeptAll(all, outcomes);
    hide Kept;
  }

  lemma FinishedMore(finished: multiset<nat>, receiving: multiset<nat>, handled: multiset<nat>, id: nat)
    requires finished + receiving == handled
    ensures finished + multiset{id} + receiving == handled + multiset{id} == finished + (receiving + multiset{id})
  {
  }

  lemma FinishedOne(finished: multiset<nat>, receiving: multiset<nat>, handled: multiset<nat>, id: nat)
    requires finished + (receiving + multiset{id}) == handled
    ensures finished + multiset{id} + receiving == handled
  {
  }

  /** A drop finished at once. */
  lemma AgreesFinished(offer: Option<Offer>, receiving: seq<Receipt>, presence: Presence, s: Sum,
      handled: multiset<nat>)
    requires Agrees(offer, receiving, presence, s, handled) && offer.Some?
    ensures var id := offer.value.id;
            Agrees(offer, receiving, Delivered, Step(s, Finished(id)), handled + multiset{id}) &&
            (offer.value.field ==> Agrees(None, receiving, Delivered, Step(s, Finished(id)), handled + multiset{id}))
  {
    FinishedMore(s.finished, Offers(receiving), handled, offer.value.id);
  }

  /** A drop to be received; its target, if it was in one, is left. */
  lemma AgreesReceived(offer: Option<Offer>, receiving: seq<Receipt>, presence: Presence, s: Sum,
      handled: multiset<nat>)
    requires Agrees(offer, receiving, presence, s, handled) && offer.Some?
    ensures var o := offer.value;
            Agrees(None, receiving + [Receipt(o.id, o.view, o.field)], Dropped, s.(target := Nowhere),
              handled + multiset{o.id}) &&
            (o.field ==> s.(target := Nowhere) == s)
  {
    var o := offer.value;
    OffersMore(receiving, Receipt(o.id, o.view, o.field));
    FinishedMore(s.finished, Offers(receiving), handled, o.id);
  }

  lemma EnteredWatch(offer: Option<Offer>, receiving: seq<Receipt>, presence: Presence, s: Sum, handled: multiset<nat>)
    requires Agrees(offer, receiving, presence, s, handled) && offer.Some? && !offer.value.field &&
      offer.value.view.Some?
    ensures s.target == In(offer.value.view.value)
  {
  }

  lemma AgreesClosed(offer: Option<Offer>, receiving: seq<Receipt>, presence: Presence, s: Sum, handled: multiset<nat>,
      i: nat)
    requires Agrees(offer, receiving, presence, s, handled) && i < |receiving|
    ensures Agrees(offer, receiving[..i] + receiving[i + 1..], if presence == Dropped then Delivered else presence,
                   Step(s, Finished(receiving[i].offer)), handled)
  {
    var r := receiving[i];
    assert receiving == receiving[..i] + [r] + receiving[i + 1..];
    OffersWithout(receiving[..i], r, receiving[i + 1..]);
    FinishedOne(s.finished, Offers(receiving[..i] + receiving[i + 1..]), handled, r.offer);
  }

  /**
   Two drops on their way, one received: the window is told its drag ended before the other was given to its target.
   */
  method WindowEndsEarly(view: Tag) returns (d: DragDrop)
    ensures d.Valid() && d.receiving == [Receipt(2, Some(view), true)]
    ensures d.sent != [] && d.sent[|d.sent| - 1] == WindowExit(true)
  {
    d := new DragDrop();
    DropInField(d, 1, view);
    DropInField(d, 2, view);
    KeptSecond(Receipt(1, Some(view), true), Receipt(2, Some(view), true));
    d.Deliver([Whole, Open]);
    d.RanJavaScript();
  }

  method DropInField(d: DragDrop, id: nat, view: Tag)
    requires d.Valid()
    modifies d
    ensures d.Valid() && d.receiving == old(d.receiving) + [Receipt(id, Some(view), true)]
    ensures d.offer == None && d.presence == Dropped && d.tree == old(d.tree)
  {
    hide SumOf, Agrees, Innermost;
    var field := [Place(view, true, Some(false), None)];
    FieldInnermost(view);
    d.Enter(id, 1, 0, 0, []);
    d.OfferType(id, "text/plain", []);
    assert d.offer.value.types == ["text/plain"];
    d.Motion(id, field);
    d.DropEvent(id, 0, true, None);
  }

  lemma FieldInnermost(view: Tag)
    ensures var c := Innermost([Place(view, true, Some(false), None)], ["text/plain"]); c.Field? && c.view == view
  {
    assert FieldType(["text/plain"]) == Some("text/plain") by {
      assert FIELD_TYPES[1..] == ["text/plain", "text/uri-list"];
      assert FirstOffered(FIELD_TYPES[1..], ["text/plain"]) == Some("text/plain");
    }
  }

  lemma KeptSecond(a: Receipt, b: Receipt)
    ensures Kept([a, b], [Whole, Open]) == [b]
  {
    assert [a, b][..1] == [a] && [Whole, Open][..1] == [Whole] && [a][..0] == [] && [Whole][..0] == [];
    assert Kept([a], [Whole]) == [];
  }
}
