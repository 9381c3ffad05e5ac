/**
 * Lidarr notifications and custom formats as two more kinds of the same reconcile theorem.
 * Notifications are selected by the ownership tag; custom formats are not tagged at all, so
 * every custom format of the instance counts as managed.
 */
module Lidarr {
  import opened Common
  import opened Sync
  import opened Remote
  import Env

  datatype RType = Notification | CustomFormat

  /** A field value: the printed form decides equality, and a number may change on its way through JSON. */
  datatype Json = Null | Str(text: string) | Other(raw: int)
  datatype Wire = Wire(show: int -> string, carry: int -> int)

  datatype Event =
    | OnGrab | OnUpgrade | OnRename | OnHealthIssue | OnHealthRestored | OnApplicationUpdate | IncludeHealthWarnings
    | OnReleaseImport | OnArtistAdd | OnArtistDelete | OnAlbumDelete | OnTrackRetag
    | OnDownloadFailure | OnImportFailure

  datatype Spec = Spec(stype: string, name: string, negate: bool, required: bool, value: string)

  datatype IR =
    | NotificationIR(implementation: string, contract: string, events: set<Event>, fields: map<string, Json>)
    | CustomFormatIR(includeWhenRenaming: bool, specs: seq<Spec>)

  datatype SpecBody = SpecBody(name: string, implementation: string, negate: bool, required: bool,
                               fields: seq<(string, Json)>)

  datatype Body =
    | NotificationBody(implementation: string, contract: string, events: set<Event>, fields: seq<(string, Json)>)
    | CustomFormatBody(includeWhenRenaming: bool, specs: seq<SpecBody>)

  function Show(w: Wire, v: Json): string {
    match v
    case Null => "<nil>"
    case Str(s) => s
    case Other(n) => w.show(n)
  }

  function Carry(w: Wire, v: Json): Json {
    if v.Other? then Other(w.carry(v.raw)) else v
  }

  // ----- Notifications -----

  function FieldList(w: Wire, fields: map<string, Json>, order: seq<string>): seq<(string, Json)>
    requires forall k :: k in order ==> k in fields
  {
    seq(|order|, i requires 0 <= i < |order| => (order[i], Carry(w, fields[order[i]])))
  }

  function ReadFields(fields: seq<(string, Json)>): map<string, Json> {
    if fields == [] then map[]
    else
      var (name, v), before := fields[|fields| - 1], ReadFields(fields[..|fields| - 1]);
      if name != "" && v != Null then before[name := v] else before
  }

  lemma {:induction false} FieldReadBack(w: Wire, fields: map<string, Json>, order: seq<string>, n: string)
    requires forall k :: k in order ==> k in fields
    ensures var read := ReadFields(FieldList(w, fields, order));
            && (n in read <==> n in order && n != "" && fields[n] != Null)
            && (n in read ==> read[n] == Carry(w, fields[n]))
  {
    if order != [] {
      var list := FieldList(w, fields, order);
      assert list[..|list| - 1] == FieldList(w, fields, order[..|order| - 1]);
      FieldReadBack(w, fields, order[..|order| - 1], n);
    }
  }

  predicate SameNotification(w: Wire, a: IR, b: IR)
    requires a.NotificationIR? && b.NotificationIR?
  {
    && a.implementation == b.implementation && a.events == b.events
    && |a.fields| == |b.fields|
    && forall k :: k in a.fields ==> k in b.fields && Show(w, a.fields[k]) == Show(w, b.fields[k])
  }

  // ----- Custom formats -----

  function WriteSpec(s: Spec): SpecBody {
    SpecBody(s.name, s.stype, s.negate, s.required, [("value", Str(s.value))])
  }

  /** The first field called "value", printed if it is not a string. */
  function ReadSpec(w: Wire, s: SpecBody): Spec {
    Spec(s.implementation, s.name, s.negate, s.required, FirstValue(w, s.fields))
  }

  function FirstValue(w: Wire, fields: seq<(string, Json)>): string {
    if fields == [] then ""
    else if fields[0].0 == "value" then Show(w, fields[0].1)
    else FirstValue(w, fields[1..])
  }

  /** Lidarr compares specifications position by position. */
  predicate SameCustomFormat(a: IR, b: IR)
    requires a.CustomFormatIR? && b.CustomFormatIR?
  {
    && a.includeWhenRenaming == b.includeWhenRenaming
    && |a.specs| == |b.specs|
    && forall i :: 0 <= i < |a.specs| ==> a.specs[i] == b.specs[i]
  }

  // ----- The kind -----

  /** Only a notification is written by walking a map. */
  function FieldKeys(ir: IR): set<string> {
    if ir.NotificationIR? then ir.fields.Keys else {}
  }

  function BuildInOrder(w: Wire, ir: IR, order: seq<string>): Body
    requires forall k :: k in order ==> k in FieldKeys(ir)
  {
    match ir
    case NotificationIR(implementation, contract, events, fields) =>
      assert forall k :: k in FieldKeys(ir) ==> k in fields;
      NotificationBody(implementation, contract, events, FieldList(w, fields, order))
    case CustomFormatIR(renaming, specs) =>
      CustomFormatBody(renaming, seq(|specs|, i requires 0 <= i < |specs| => WriteSpec(specs[i])))
  }

  ghost function Build(w: Wire, ir: IR): Body {
    BuildInOrder(w, ir, SomeOrder(FieldKeys(ir)))
  }

  function Read(w: Wire, body: Body): IR {
    match body
    case NotificationBody(implementation, contract, events, fields) =>
      NotificationIR(implementation, contract, events, ReadFields(fields))
    case CustomFormatBody(renaming, specs) =>
      CustomFormatIR(renaming, seq(|specs|, i requires 0 <= i < |specs| => ReadSpec(w, specs[i])))
  }

  predicate Same(w: Wire, current: IR, desired: IR) {
    if current.NotificationIR? && desired.NotificationIR? then SameNotification(w, current, desired)
    else current.CustomFormatIR? && desired.CustomFormatIR? && SameCustomFormat(current, desired)
  }

  ghost function LidarrKind(w: Wire): Kind<RType, IR, Body> {
    Kind((p: IR) => Build(w, p), (b: Body) => Read(w, b), (c: IR, d: IR) => Same(w, c, d),
         (r: RType) => r.Notification?)
  }

  /** The kind of an adapter that walks the fields in the order of their names. */
  function SortedKind(w: Wire): Kind<RType, IR, Body> {
    Kind((p: IR) => BuildInOrder(w, p, Env.InOrder(FieldKeys(p))), (b: Body) => Read(w, b),
         (c: IR, d: IR) => Same(w, c, d), (r: RType) => r.Notification?)
  }

  /** In whatever order the fields are walked, they read back the same. */
  lemma BuildOrderIrrelevant(w: Wire, ir: IR, order: seq<string>)
    requires forall k :: k in order <==> k in FieldKeys(ir)
    ensures Read(w, BuildInOrder(w, ir, order)) == Back(LidarrKind(w), ir)
  {
    if ir.NotificationIR? {
      var some := SomeOrder(ir.fields.Keys);
      var a, b := ReadFields(FieldList(w, ir.fields, order)), ReadFields(FieldList(w, ir.fields, some));
      forall n ensures (n in a <==> n in b) && (n in a ==> a[n] == b[n]) {
        FieldReadBack(w, ir.fields, order, n);
        FieldReadBack(w, ir.fields, some, n);
      }
      assert a == b;
    }
  }

  lemma SortedKindIsAlike(w: Wire)
    ensures Alike(SortedKind(w), LidarrKind(w))
  {
    forall p ensures Back(SortedKind(w), p) == Back(LidarrKind(w), p) {
      BuildOrderIrrelevant(w, p, Env.InOrder(FieldKeys(p)));
    }
  }

  /** What is written, part by part. */
  lemma WrittenInFull(w: Wire, ir: IR)
    ensures var body := Build(w, ir);
            match ir
            case NotificationIR(implementation, contract, events, fields) =>
              && body.NotificationBody? && body.implementation == implementation && body.contract == contract
              && body.events == events && (forall f :: f in body.fields ==> f.0 in fields)
              && forall n :: n in fields ==> (n, Carry(w, fields[n])) in body.fields
            case CustomFormatIR(renaming, specs) =>
              && body.CustomFormatBody? && body.includeWhenRenaming == renaming && |body.specs| == |specs|
              && forall i :: 0 <= i < |specs| ==>
                   && body.specs[i].name == specs[i].name && body.specs[i].implementation == specs[i].stype
                   && body.specs[i].negate == specs[i].negate && body.specs[i].required == specs[i].required
                   && body.specs[i].fields == [("value", Str(specs[i].value))]
  {
    if ir.NotificationIR? {
      var order := SomeOrder(ir.fields.Keys);
      forall n | n in ir.fields ensures (n, Carry(w, ir.fields[n])) in FieldList(w, ir.fields, order) {
        var i :| 0 <= i < |order| && order[i] == n;
        assert FieldList(w, ir.fields, order)[i] == (n, Carry(w, ir.fields[n]));
      }
    }
  }

  /** A custom format always survives; a notification does if its fields are named, present and print as before. */
  predicate IsStable(w: Wire, ir: IR) {
    ir.NotificationIR? ==>
      forall n :: n in ir.fields ==>
        && n != "" && ir.fields[n] != Null
        && Show(w, Carry(w, ir.fields[n])) == Show(w, ir.fields[n])
  }

  lemma StableIff(w: Wire, ir: IR)
    ensures Stable(LidarrKind(w), ir) <==> IsStable(w, ir)
  {
    var kd := LidarrKind(w);
    var back := Read(w, Build(w, ir));
    assert Back(kd, ir) == back;
    match ir
    case NotificationIR(_, _, _, fields) =>
      var order := SomeOrder(fields.Keys);
      forall n
        ensures n in back.fields <==> n in fields && n != "" && fields[n] != Null
        ensures n in back.fields ==> back.fields[n] == Carry(w, fields[n])
      {
        FieldReadBack(w, fields, order, n);
      }
      SubmapCount(back.fields, fields);
      assert SameNotification(w, back, ir) <==> IsStable(w, ir);
    case CustomFormatIR(_, specs) =>
      forall i | 0 <= i < |specs| ensures back.specs[i] == specs[i] {
        assert back.specs[i] == ReadSpec(w, WriteSpec(specs[i]));
      }
  }

  lemma SubmapCount(small: map<string, Json>, big: map<string, Json>)
    requires small.Keys <= big.Keys
    ensures |small| == |big| <==> small.Keys == big.Keys
  {
    var rest := big.Keys - small.Keys;
    assert big.Keys == small.Keys + rest && small.Keys !! rest;
    assert |big.Keys| == |small.Keys| + |rest|;
    assert rest == {} <==> small.Keys == big.Keys;
  }

  lemma LidarrConverges<K>(w: Wire, current: map<K, IR>, desired: map<K, IR>)
    ensures var kd := LidarrKind(w);
            Pending(kd, Target(kd, current, desired, Pending(kd, current, desired)), desired) == {} <==>
            forall k :: k in Pending(kd, current, desired) && k in desired ==> IsStable(w, desired[k])
  {
    ConvergesIffStable(LidarrKind(w), current, desired);
    forall k | k in desired ensures Stable(LidarrKind(w), desired[k]) <==> IsStable(w, desired[k]) {
      StableIff(w, desired[k]);
    }
  }

  /**
   * Where the ownership rule stops: a custom format the operator never wrote is owned under
   * every tag, so one that is not desired is a pending delete.
   */
  lemma ForeignCustomFormatIsDeleted(w: Wire, t: int, st: Store<RType, Body>, l: Loc<RType>,
                                     desired: map<Key<RType>, IR>)
    requires l in st && st[l].key.rtype.CustomFormat? && st[l].key !in desired
    ensures PendingOp(LidarrKind(w), View(LidarrKind(w), t, st), desired, st[l].key) == Some(Delete)
  {
    assert Holds(LidarrKind(w), t, st, l, st[l].key);
  }

  /** When a custom format is left alone, whoever made it: exactly if it is desired and already as desired. */
  lemma CustomFormatLeftAloneIff(w: Wire, t: int, st: Store<RType, Body>, l: Loc<RType>, desired: map<Key<RType>, IR>)
    requires UniqueNames(LidarrKind(w), t, st) && l in st && st[l].key.rtype.CustomFormat?
    ensures var op := PendingOp(LidarrKind(w), View(LidarrKind(w), t, st), desired, st[l].key);
            && (op == None <==> st[l].key in desired && Same(w, Read(w, st[l].body), desired[st[l].key]))
            && (op == Some(Delete) <==> st[l].key !in desired)
  {
    var kd, k := LidarrKind(w), st[l].key;
    assert Holds(kd, t, st, l, k);
    assert Locate(kd, t, st, k) == l;
  }
}
