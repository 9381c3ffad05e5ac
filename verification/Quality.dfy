/**
 * Building a Lidarr quality profile from the schema Lidarr serves: a deep copy of a tree of
 * qualities and quality groups, and the choice of a cutoff.
 *
 * Items are values that hold references (to a quality, and to the array behind a slice), so
 * copying an item shallowly would share what it refers to.
 */
module Quality {
  import opened Common

  class QualityRef {
    var id: int
    var name: string
    constructor (id: int, name: string) ensures this.id == id && this.name == name { this.id, this.name := id, name; }
  }

  /** A null `items` is a nil slice. */
  datatype Item = Item(id: int, name: string, quality: QualityRef?, allowed: bool, items: array?<Item>)

  /** What an item means, whatever the references it is spread over. */
  datatype Tree = Tree(id: int, name: string, quality: Option<(int, string)>, allowed: bool, items: seq<Tree>)

  /** Everything reachable from `item` is in `nodes`, and is the tree `t`. Strictly: no slice is nil. */
  ghost predicate Represents(item: Item, t: Tree, nodes: set<object>, strict: bool)
    reads nodes
    decreases t
  {
    && (item.id, item.name, item.allowed) == (t.id, t.name, t.allowed)
    && (if item.quality == null then t.quality == None
        else item.quality in nodes && t.quality == Some((item.quality.id, item.quality.name)))
    && (if item.items == null then t.items == [] && !strict
        else
          && item.items in nodes && item.items.Length == |t.items|
          && forall i :: 0 <= i < |t.items| ==> Represents(item.items[i], t.items[i], nodes, strict))
  }

  lemma {:induction false} Widen(item: Item, t: Tree, nodes: set<object>, more: set<object>, strict: bool)
    requires Represents(item, t, nodes, strict) && nodes <= more
    ensures Represents(item, t, more, strict)
    decreases t
  {
    if item.items != null {
      forall i | 0 <= i < |t.items| ensures Represents(item.items[i], t.items[i], more, strict) {
        Widen(item.items[i], t.items[i], nodes, more, strict);
      }
    }
  }

  /** An item represents one tree only. */
  lemma {:induction false} Unambiguous(item: Item, t: Tree, u: Tree, nodes: set<object>, more: set<object>,
                                       strict: bool, strict': bool)
    requires Represents(item, t, nodes, strict) && Represents(item, u, more, strict')
    ensures t == u
    decreases t
  {
    if item.items != null {
      forall i | 0 <= i < |t.items| ensures t.items[i] == u.items[i] {
        Unambiguous(item.items[i], t.items[i], u.items[i], nodes, more, strict, strict');
      }
      assert t.items == u.items;
    }
  }

  /** The items copied so far are the first of the trees, in `made`. */
  ghost predicate Copies(built: seq<Item>, trees: seq<Tree>, made: set<object>)
    reads made
  {
    |built| <= |trees| && forall j :: 0 <= j < |built| ==> Represents(built[j], trees[j], made, true)
  }

  lemma CopiesNext(built: seq<Item>, item: Item, trees: seq<Tree>, made: set<object>, more: set<object>)
    requires Copies(built, trees, made) && |built| < |trees| && Represents(item, trees[|built|], more, true)
    ensures Copies(built + [item], trees, made + more)
  {
    forall j | 0 <= j < |built| ensures Represents(built[j], trees[j], made + more, true) {
      Widen(built[j], trees[j], made, made + more, true);
    }
    Widen(item, trees[|built|], more, made + more, true);
  }

  method CopyQuality(quality: QualityRef?) returns (copied: QualityRef?)
    ensures copied == null <==> quality == null
    ensures copied != null ==> fresh(copied) && copied.id == quality.id && copied.name == quality.name
  {
    copied := null;
    if quality != null { copied := new QualityRef(quality.id, quality.name); }
  }

  /** The copy is the same tree, in nodes that did not exist before the call, at any depth. */
  method CopyQualityItem(item: Item, ghost t: Tree, ghost nodes: set<object>) returns (copied: Item,
                         ghost made: set<object>)
    requires Represents(item, t, nodes, false)
    ensures fresh(made) && Represents(copied, t, made, true)
    decreases t
  {
    var quality := CopyQuality(item.quality);
    var n := if item.items == null then 0 else item.items.Length;
    var items := new Item[n];
    copied := Item(item.id, item.name, quality, item.allowed, items);
    made := if quality != null then {quality} else {};
    for i := 0 to n
      invariant fresh(made) && items !in made && (quality != null ==> quality in made)
      invariant quality != null ==> t.quality == Some((quality.id, quality.name))
      invariant Represents(item, t, nodes, false)
      invariant Copies(items[..i], t.items, made)
    {
      ghost var more, built := {}, items[..i];
      var c;
      c, more := CopyQualityItem(item.items[i], t.items[i], nodes);
      CopiesNext(built, c, t.items, made, more);
      made := made + more;
      items[i] := c;
      assert items[..i + 1] == built + [c];
    }
    assert items[..n] == items[..];
    Assemble(copied, t, made);
    made := made + {items};
  }

  lemma Assemble(item: Item, t: Tree, made: set<object>)
    requires item.items != null && item.items.Length == |t.items| && Copies(item.items[..], t.items, made)
    requires (item.id, item.name, item.allowed) == (t.id, t.name, t.allowed)
    requires if item.quality == null then t.quality == None
             else item.quality in made && t.quality == Some((item.quality.id, item.quality.name))
    ensures Represents(item, t, made + {item.items}, true)
  {
    forall j | 0 <= j < |t.items| ensures Represents(item.items[j], t.items[j], made + {item.items}, true) {
      assert item.items[..][j] == item.items[j];
      Widen(item.items[j], t.items[j], made, made + {item.items}, true);
    }
  }

  // ----- Tiers -----

  function GroupNameToTier(name: string): string {
    match name
    case "Lossless" => "lossless"
    case "High Quality Lossy" => "lossy-high"
    case "Mid Quality Lossy" => "lossy-mid"
    case "Low Quality Lossy" => "lossy-low"
    case _ => ""
  }

  function QualityNameToTier(name: string): string {
    if name in {"FLAC 24bit", "ALAC 24bit"} then "lossless-hires"
    else if name in {"FLAC", "ALAC", "APE", "WavPack", "WAV"} then "lossless"
    else if name in {"MP3-320", "AAC-320", "OGG Vorbis Q10", "OGG Vorbis Q9", "MP3-VBR-V0", "AAC-VBR"} then "lossy-high"
    else if name in {"MP3-256", "AAC-256", "OGG Vorbis Q8", "OGG Vorbis Q7", "MP3-VBR-V2"} then "lossy-mid"
    else if name in {"MP3-192", "AAC-192", "OGG Vorbis Q6", "WMA", "MP3-160", "MP3-128"} then "lossy-low"
    else ""
  }

  function TierName(t: Tree): string {
    var tier := GroupNameToTier(t.name);
    if tier == "" && t.quality.Some? then QualityNameToTier(t.quality.value.1) else tier
  }

  datatype Wanted = Wanted(name: string, upgradeAllowed: bool, tiers: seq<(string, bool)>, cutoff: string)

  // ----- What the profile must be -----

  /** A tier that is mentioned decides; otherwise the schema's own flag stays. */
  function Allowed(t: Tree, tiers: seq<(string, bool)>): bool {
    if TierName(t) in Index(tiers) then Index(tiers)[TierName(t)] else t.allowed
  }

  function Marked(t: Tree, tiers: seq<(string, bool)>): Tree {
    t.(allowed := Allowed(t, tiers))
  }

  /** The ID an allowed item of the cutoff tier offers: a group its own, a single quality that quality's. */
  function Offer(t: Tree, w: Wanted): Option<int> {
    if TierName(t) !in Index(w.tiers) || !Index(w.tiers)[TierName(t)] || w.cutoff != TierName(t) then None
    else if t.id != 0 then Some(t.id)
    else if t.quality.Some? then Some(t.quality.value.0)
    else None
  }

  /** The last of the items that offer an ID. */
  ghost predicate LastOffer(trees: seq<Tree>, w: Wanted, i: int) {
    0 <= i < |trees| && Offer(trees[i], w).Some? && forall j :: i < j < |trees| ==> Offer(trees[j], w).None?
  }

  /** `cutoff` is what the last offer says, 0 if there is none. */
  ghost predicate Chosen(trees: seq<Tree>, w: Wanted, cutoff: int) {
    || ((forall i :: 0 <= i < |trees| ==> Offer(trees[i], w).None?) && cutoff == 0)
    || (exists i :: LastOffer(trees, w, i) && Offer(trees[i], w) == Some(cutoff))
  }

  const DEFAULT_CUTOFF := 1005

  datatype Profile = Profile(name: string, upgradeAllowed: bool, items: array<Item>, cutoff: int)

  ghost predicate AllRepresent(items: array<Item>, trees: seq<Tree>, nodes: set<object>, strict: bool)
    reads items, nodes
  {
    items.Length == |trees| && forall i :: 0 <= i < |trees| ==> Represents(items[i], trees[i], nodes, strict)
  }

  /** One step of the loop over the schema: copy, mark, track the cutoff. */
  method ProfileItem(item: Item, w: Wanted, tierAllowed: map<string, bool>, cutoff: int, ghost t: Tree,
                     ghost nodes: set<object>)
    returns (copied: Item, cutoff': int, ghost made: set<object>)
    requires Represents(item, t, nodes, false) && tierAllowed == Index(w.tiers)
    ensures fresh(made) && Represents(copied, Marked(t, w.tiers), made, true)
    ensures cutoff' == if Offer(t, w).Some? then Offer(t, w).value else cutoff
  {
    cutoff' := cutoff;
    copied, made := CopyQualityItem(item, t, nodes);
    var tierName := GroupNameToTier(item.name);
    if tierName == "" && item.quality != null {
      tierName := QualityNameToTier(item.quality.name);
    }
    if tierName in tierAllowed {
      copied := copied.(allowed := tierAllowed[tierName]);
      if tierAllowed[tierName] && w.cutoff == tierName {
        if item.id != 0 {
          cutoff' := item.id;
        } else if item.quality != null {
          cutoff' := item.quality.id;
        }
      }
    }
    Remark(copied, t, w.tiers, made);
  }

  /** The schema is left as it is: nothing that existed before is modified. */
  method ProfileFromSchema(schema: array<Item>, w: Wanted, ghost trees: seq<Tree>, ghost nodes: set<object>)
    returns (profile: Profile, ghost made: set<object>)
    requires AllRepresent(schema, trees, nodes, false)
    ensures AllRepresent(schema, trees, nodes, false)
    ensures profile.name == w.name && profile.upgradeAllowed == w.upgradeAllowed
    ensures fresh(profile.items) && fresh(made) && profile.items.Length == |trees| && profile.items !in made
    ensures Copies(profile.items[..], AllMarked(trees, w.tiers), made)
    ensures exists c :: Chosen(trees, w, c) && profile.cutoff == if c == 0 then 1005 else c
  {
    var items := new Item[schema.Length];
    var tierAllowed := BuildIndex(w.tiers);
    made := {};
    ghost var marked := AllMarked(trees, w.tiers);
    var cutoff := 0;
    for i := 0 to schema.Length
      invariant fresh(made) && items !in made && AllRepresent(schema, trees, nodes, false)
      invariant Copies(items[..i], marked, made)
      invariant Chosen(trees[..i], w, cutoff)
    {
      ghost var more, before, built := {}, cutoff, items[..i];
      var copied;
      copied, cutoff, more := ProfileItem(schema[i], w, tierAllowed, cutoff, trees[i], nodes);
      ChooseNext(trees, w, i, before, cutoff);
      CopiesNext(built, copied, marked, made, more);
      made := made + more;
      items[i] := copied;
      assert items[..i + 1] == built + [copied];
    }
    assert trees[..schema.Length] == trees && items[..] == items[..schema.Length];
    profile := Profile(w.name, w.upgradeAllowed, items, if cutoff == 0 then DEFAULT_CUTOFF else cutoff);
  }

  function AllMarked(trees: seq<Tree>, tiers: seq<(string, bool)>): seq<Tree> {
    seq(|trees|, i requires 0 <= i < |trees| => Marked(trees[i], tiers))
  }

  lemma Remark(item: Item, t: Tree, tiers: seq<(string, bool)>, nodes: set<object>)
    requires Represents(item.(allowed := t.allowed), t, nodes, true) && item.allowed == Allowed(t, tiers)
    ensures Represents(item, Marked(t, tiers), nodes, true)
  {
  }

  lemma ChooseNext(trees: seq<Tree>, w: Wanted, i: int, before: int, after: int)
    requires 0 <= i < |trees| && Chosen(trees[..i], w, before)
    requires after == if Offer(trees[i], w).Some? then Offer(trees[i], w).value else before
    ensures Chosen(trees[..i + 1], w, after)
  {
    var old', new' := trees[..i], trees[..i + 1];
    assert forall j :: 0 <= j < i ==> new'[j] == old'[j];
    if Offer(trees[i], w).Some? {
      assert LastOffer(new', w, i);
    } else if k :| LastOffer(old', w, k) && Offer(old'[k], w) == Some(before) {
      assert LastOffer(new', w, k);
    }
  }

  // ----- Tiers and marks in full -----

  /** A group is of the tier its name stands for, anything else of the tier of its quality. */
  lemma TierOfGroup(t: Tree)
    ensures t.name == "Lossless" ==> TierName(t) == "lossless"
    ensures t.name == "High Quality Lossy" ==> TierName(t) == "lossy-high"
    ensures t.name == "Mid Quality Lossy" ==> TierName(t) == "lossy-mid"
    ensures t.name == "Low Quality Lossy" ==> TierName(t) == "lossy-low"
    ensures t.quality.None? ==>
              (TierName(t) == "" <==>
                 t.name !in {"Lossless", "High Quality Lossy", "Mid Quality Lossy", "Low Quality Lossy"})
  {
  }

  lemma TierOfQuality(t: Tree)
    requires t.name !in {"Lossless", "High Quality Lossy", "Mid Quality Lossy", "Low Quality Lossy"} && t.quality.Some?
    ensures var q := t.quality.value.1;
            && (q in {"FLAC 24bit", "ALAC 24bit"} ==> TierName(t) == "lossless-hires")
            && (q in {"FLAC", "ALAC", "APE", "WavPack", "WAV"} ==> TierName(t) == "lossless")
            && (q in {"MP3-320", "AAC-320", "OGG Vorbis Q10", "OGG Vorbis Q9", "MP3-VBR-V0", "AAC-VBR"} ==>
                  TierName(t) == "lossy-high")
            && (q in {"MP3-256", "AAC-256", "OGG Vorbis Q8", "OGG Vorbis Q7", "MP3-VBR-V2"} ==>
                  TierName(t) == "lossy-mid")
            && (q in {"MP3-192", "AAC-192", "OGG Vorbis Q6", "WMA", "MP3-160", "MP3-128"} ==>
                  TierName(t) == "lossy-low")
  {
  }

  /** The last mention of an item's tier decides whether it is allowed; without one the schema's mark stays. */
  lemma MarkInFull(t: Tree, tiers: seq<(string, bool)>)
    ensures (forall i :: 0 <= i < |tiers| ==> tiers[i].0 != TierName(t)) ==> Marked(t, tiers) == t
    ensures forall i ::
              && 0 <= i < |tiers| && tiers[i].0 == TierName(t)
              && (forall j :: i < j < |tiers| ==> tiers[j].0 != TierName(t)) ==>
                Marked(t, tiers) == t.(allowed := tiers[i].1)
  {
    LastWins(tiers, TierName(t));
  }

  /** The tier is mentioned, and the last mention allows it. */
  ghost predicate TierAllowed(tiers: seq<(string, bool)>, tier: string) {
    exists i :: 0 <= i < |tiers| && tiers[i] == (tier, true) && forall j :: i < j < |tiers| ==> tiers[j].0 != tier
  }

  /** The `i`-th is the last item of the cutoff tier that has an ID. */
  ghost predicate LastOfCutoffTier(trees: seq<Tree>, w: Wanted, i: int) {
    && 0 <= i < |trees| && TierName(trees[i]) == w.cutoff && (trees[i].id != 0 || trees[i].quality.Some?)
    && forall j :: i < j < |trees| && TierName(trees[j]) == w.cutoff ==> trees[j].id == 0 && trees[j].quality.None?
  }

  /** The cutoff is the ID of that item, a group's own and a single quality's; 0 without one or if not allowed. */
  lemma CutoffInFull(trees: seq<Tree>, w: Wanted, c: int)
    requires Chosen(trees, w, c)
    ensures TierAllowed(w.tiers, w.cutoff) ==>
              forall i :: LastOfCutoffTier(trees, w, i) ==>
                c == if trees[i].id != 0 then trees[i].id else trees[i].quality.value.0
    ensures !TierAllowed(w.tiers, w.cutoff) || (forall i :: !LastOfCutoffTier(trees, w, i)) ==> c == 0
  {
    AllowedInFull(w.tiers, w.cutoff);
    forall i | 0 <= i < |trees|
      ensures Offer(trees[i], w) ==
              if !TierAllowed(w.tiers, w.cutoff) || TierName(trees[i]) != w.cutoff then None
              else if trees[i].id != 0 then Some(trees[i].id)
              else if trees[i].quality.Some? then Some(trees[i].quality.value.0) else None {}
    forall i | TierAllowed(w.tiers, w.cutoff) && LastOfCutoffTier(trees, w, i)
      ensures Chosen(trees, w, Offer(trees[i], w).value) && Offer(trees[i], w).value == c
    {
      assert LastOffer(trees, w, i);
      ChosenIsUnique(trees, w, c, Offer(trees[i], w).value);
    }
    if i :| LastOffer(trees, w, i) && Offer(trees[i], w) == Some(c) {
      assert LastOfCutoffTier(trees, w, i);
    }
  }

  lemma {:induction false} AllowedInFull(tiers: seq<(string, bool)>, tier: string)
    ensures tier in Index(tiers) && Index(tiers)[tier] <==> TierAllowed(tiers, tier)
  {
    if tiers != [] {
      var front, last := tiers[..|tiers| - 1], tiers[|tiers| - 1];
      AllowedInFull(front, tier);
      if TierAllowed(front, tier) && last.0 != tier {
        var i :| 0 <= i < |front| && front[i] == (tier, true) && forall j :: i < j < |front| ==> front[j].0 != tier;
        assert tiers[i] == (tier, true);
      }
      if TierAllowed(tiers, tier) && last.0 != tier {
        var i :| 0 <= i < |tiers| && tiers[i] == (tier, true) && forall j :: i < j < |tiers| ==> tiers[j].0 != tier;
        assert front[i] == (tier, true);
      }
      assert tiers[|tiers| - 1] == last;
    }
  }

  // ----- What the cutoff means -----

  lemma ChosenIsUnique(trees: seq<Tree>, w: Wanted, c: int, d: int)
    requires Chosen(trees, w, c) && Chosen(trees, w, d)
    ensures c == d
  {
    if i, j :|
      && LastOffer(trees, w, i) && Offer(trees[i], w) == Some(c)
      && LastOffer(trees, w, j) && Offer(trees[j], w) == Some(d)
    {
      assert i == j;
    }
  }

  /** The ID Lidarr knows an item by: a group's own, or that of a single quality. */
  function IdOf(t: Tree): Option<int> {
    if t.id != 0 then Some(t.id) else if t.quality.Some? then Some(t.quality.value.0) else None
  }

  /** The ID is that of an item that the result marks allowed. */
  ghost predicate AllowedId(trees: seq<Tree>, w: Wanted, id: int) {
    exists i :: 0 <= i < |trees| && Marked(trees[i], w.tiers).allowed && IdOf(trees[i]) == Some(id)
  }

  /** Some item offers an ID, and the last that does offers one other than 0. */
  ghost predicate RealOffer(trees: seq<Tree>, w: Wanted) {
    exists i :: LastOffer(trees, w, i) && Offer(trees[i], w) != Some(0)
  }

  function CutoffFor(c: int): int { if c == 0 then DEFAULT_CUTOFF else c }

  /**
   * Exactly when the cutoff is an item that the profile allows: if there is a real offer, or the default happens to
   * be allowed.
   */
  lemma CutoffIsAllowedIff(trees: seq<Tree>, w: Wanted, c: int)
    requires Chosen(trees, w, c)
    ensures AllowedId(trees, w, CutoffFor(c)) <==> RealOffer(trees, w) || AllowedId(trees, w, DEFAULT_CUTOFF)
  {
    if i :| LastOffer(trees, w, i) && Offer(trees[i], w) != Some(0) {
      ChosenIsUnique(trees, w, c, Offer(trees[i], w).value);
      assert Marked(trees[i], w.tiers).allowed && IdOf(trees[i]) == Some(c);
    }
  }

  /**
   * A cutoff other than the default's stand-in 0 is the ID of an allowed item of the cutoff tier, and of the last
   * such item.
   */
  lemma CutoffIsOfItsTier(trees: seq<Tree>, w: Wanted, c: int)
    requires Chosen(trees, w, c) && c != 0
    ensures exists i ::
              && 0 <= i < |trees| && Marked(trees[i], w.tiers).allowed
              && TierName(trees[i]) == w.cutoff && IdOf(trees[i]) == Some(c)
              && forall j :: i < j < |trees| && TierName(trees[j]) == w.cutoff ==> IdOf(trees[j]) == None
  {
    var i :| LastOffer(trees, w, i) && Offer(trees[i], w) == Some(c);
    forall j | i < j < |trees| && TierName(trees[j]) == w.cutoff ensures IdOf(trees[j]) == None {
      assert Offer(trees[j], w).None?;
    }
  }

  /**
   * When the default is used: exactly if the cutoff tier is not an allowed one, or the last item of it that has an
   * ID has 0.
   */
  lemma DefaultIsUsedIff(trees: seq<Tree>, w: Wanted, c: int)
    requires Chosen(trees, w, c)
    ensures c == 0 <==>
              || w.cutoff !in Index(w.tiers) || !Index(w.tiers)[w.cutoff]
              || (forall i :: 0 <= i < |trees| && TierName(trees[i]) == w.cutoff ==> IdOf(trees[i]) == None)
              || (exists i :: 0 <= i < |trees| && TierName(trees[i]) == w.cutoff && IdOf(trees[i]) == Some(0)
                              && forall j :: i < j < |trees| && TierName(trees[j]) == w.cutoff ==>
                                  IdOf(trees[j]) == None)
  {
    forall i | 0 <= i < |trees| ensures Offer(trees[i], w) ==
        if w.cutoff in Index(w.tiers) && Index(w.tiers)[w.cutoff] && TierName(trees[i]) == w.cutoff then IdOf(trees[i])
            else None {}
    if i :| 0 <= i < |trees| && TierName(trees[i]) == w.cutoff && IdOf(trees[i]) == Some(0)
            && forall j :: i < j < |trees| && TierName(trees[j]) == w.cutoff ==> IdOf(trees[j]) == None {
      if w.cutoff in Index(w.tiers) && Index(w.tiers)[w.cutoff] {
        assert LastOffer(trees, w, i);
        ChosenIsUnique(trees, w, c, 0);
      }
    }
  }

  /** The last match wins whatever came before it, so the cutoff is not the highest tier's in general. */
  lemma LastMatchWins(trees: seq<Tree>, w: Wanted, x: Tree, c: int)
    requires Offer(x, w).Some? && Chosen(trees + [x], w, c)
    ensures c == Offer(x, w).value
  {
    assert LastOffer(trees + [x], w, |trees|);
    ChosenIsUnique(trees + [x], w, c, Offer(x, w).value);
  }
}
