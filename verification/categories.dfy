/** The two static category tables that fill the dialog's category combo box.
    The CT_* type flags belong to the game engine, so they are a parameter:
    every fact proved here holds whatever their values are. */
module Categories {
  import opened Modes
  import opened Components

  /** The engine's component-type flags that the dialog mentions. */
  datatype TypeBits = TypeBits(
    armor: Word, shield: Word, weapon: Word, bomb: Word, elec: Word,
    engine: Word, minelay: Word, miner: Word, scanner: Word, mech: Word,
    orbital: Word, hull: Word, base: Word)

  /** One combo-box entry: a title and the type mask stored as its item data. */
  datatype Category = Category(title: string, mask: Word)

  /** The bitwise OR of all masks in `ms` (the zero word for none). */
  function OrAll(ms: seq<Word>): Word
  {
    if ms == [] then {} else ms[0] + OrAll(ms[1..])
  }

  /** The masks of a run of table entries, in order. */
  function MasksOf(cats: seq<Category>): (ms: seq<Word>)
    ensures |ms| == |cats|
    ensures forall j :: 0 <= j < |cats| ==> ms[j] == cats[j].mask
  {
    seq(|cats|, j requires 0 <= j < |cats| => cats[j].mask)
  }

  /** The starbase table, without its terminating null entry. */
  function StarbaseCategories(t: TypeBits): (cats: seq<Category>)
    ensures |cats| == 7 && cats[0].title == "All"
    ensures cats[0].mask == OrAll(MasksOf(cats[1..]))
  {
    var rest := [
      Category("Armor", t.armor),
      Category("Shields", t.shield),
      Category("Weapons", t.weapon),
      Category("Electrical", t.elec),
      Category("Mechanical", t.mech),
      Category("Orbital", t.orbital)];
    var all := t.armor + t.shield + t.weapon + t.elec + t.mech + t.orbital;
    assert MasksOf(rest) == [t.armor, t.shield, t.weapon, t.elec, t.mech, t.orbital];
    OrAllOfSix(t.armor, t.shield, t.weapon, t.elec, t.mech, t.orbital);
    assert ([Category("All", all)] + rest)[1..] == rest;
    [Category("All", all)] + rest
  }

  /** The ship table, without its terminating null entry. */
  function ShipCategories(t: TypeBits): (cats: seq<Category>)
    ensures |cats| == 11 && cats[0].title == "All"
    ensures cats[0].mask == OrAll(MasksOf(cats[1..]))
  {
    var rest := [
      Category("Armor", t.armor),
      Category("Shields", t.shield),
      Category("Weapons", t.weapon),
      Category("Bombs", t.bomb),
      Category("Electrical", t.elec),
      Category("Engines", t.engine),
      Category("Mine layers", t.minelay),
      Category("Mining Robots", t.miner),
      Category("Scanner", t.scanner),
      Category("Mechanical", t.mech)];
    var all := t.armor + t.shield + t.weapon + t.bomb + t.elec + t.engine
      + t.minelay + t.miner + t.scanner + t.mech;
    assert MasksOf(rest) == [t.armor, t.shield, t.weapon, t.bomb, t.elec,
                             t.engine, t.minelay, t.miner, t.scanner, t.mech];
    OrAllOfTen(t.armor, t.shield, t.weapon, t.bomb, t.elec,
               t.engine, t.minelay, t.miner, t.scanner, t.mech);
    assert ([Category("All", all)] + rest)[1..] == rest;
    [Category("All", all)] + rest
  }

  /** The table the combo box is filled from for a design mode. */
  function CategoryTable(t: TypeBits, dm: DesignMode): (cats: seq<Category>)
    ensures |cats| >= 1 && cats[0].title == "All"
    ensures cats[0].mask == OrAll(MasksOf(cats[1..]))
  {
    match dm
    case Ships => ShipCategories(t)
    case Starbases => StarbaseCategories(t)
  }

  /** OrAll of a run with a known first mask. */
  lemma OrAllCons(m: Word, ms: seq<Word>)
    ensures OrAll([m] + ms) == m + OrAll(ms)
  {
  }

  /** The starbase "All" mask, as the table writes it, is the OR of the six
      masks after it. */
  lemma OrAllOfSix(a: Word, b: Word, c: Word, d: Word, e: Word, f: Word)
    ensures OrAll([a, b, c, d, e, f]) == a + b + c + d + e + f
  {
    OrAllCons(f, []);
    assert [f] == [f] + [];
    assert [e, f] == [e] + [f];
    OrAllCons(e, [f]);
    assert [d, e, f] == [d] + [e, f];
    OrAllCons(d, [e, f]);
    assert [c, d, e, f] == [c] + [d, e, f];
    OrAllCons(c, [d, e, f]);
    assert [b, c, d, e, f] == [b] + [c, d, e, f];
    OrAllCons(b, [c, d, e, f]);
    assert [a, b, c, d, e, f] == [a] + [b, c, d, e, f];
    OrAllCons(a, [b, c, d, e, f]);
  }

  /** The ship "All" mask, as the table writes it, is the OR of the ten masks
      after it. */
  lemma OrAllOfTen(a: Word, b: Word, c: Word, d: Word, e: Word,
                   f: Word, g: Word, h: Word, i: Word, j: Word)
    ensures OrAll([a, b, c, d, e, f, g, h, i, j]) == a + b + c + d + e + f + g + h + i + j
  {
    OrAllOfSix(e, f, g, h, i, j);
    assert [d, e, f, g, h, i, j] == [d] + [e, f, g, h, i, j];
    OrAllCons(d, [e, f, g, h, i, j]);
    assert [c, d, e, f, g, h, i, j] == [c] + [d, e, f, g, h, i, j];
    OrAllCons(c, [d, e, f, g, h, i, j]);
    assert [b, c, d, e, f, g, h, i, j] == [b] + [c, d, e, f, g, h, i, j];
    OrAllCons(b, [c, d, e, f, g, h, i, j]);
    assert [a, b, c, d, e, f, g, h, i, j] == [a] + [b, c, d, e, f, g, h, i, j];
    OrAllCons(a, [b, c, d, e, f, g, h, i, j]);
  }

  /** A bit is in the OR of some masks iff it is in one of them. */
  lemma {:induction false} OrAllOfRun(ms: seq<Word>)
    ensures forall b :: b in OrAll(ms) <==> exists j :: 0 <= j < |ms| && b in ms[j]
    decreases |ms|
  {
    if ms != [] {
      OrAllOfRun(ms[1..]);
      forall b | b in OrAll(ms)
        ensures exists j :: 0 <= j < |ms| && b in ms[j]
      {
        assert OrAll(ms) == ms[0] + OrAll(ms[1..]);
        if b !in ms[0] {
          var j :| 0 <= j < |ms[1..]| && b in ms[1..][j];
          assert ms[j + 1] == ms[1..][j];
        }
      }
      forall b | exists j :: 0 <= j < |ms| && b in ms[j]
        ensures b in OrAll(ms)
      {
        var j :| 0 <= j < |ms| && b in ms[j];
        if j > 0 {
          assert ms[1..][j - 1] == ms[j];
        }
      }
    }
  }

  /** The "All" entry lists a component iff some individual entry of the same
      table lists it. */
  lemma AllListsExactlyTheUnion(t: TypeBits, dm: DesignMode, c: Component)
    ensures var cats := CategoryTable(t, dm);
            Listed(c, cats[0].mask) <==> exists j :: 1 <= j < |cats| && Listed(c, cats[j].mask)
  {
    var cats := CategoryTable(t, dm);
    var ms := MasksOf(cats[1..]);
    OrAllOfRun(ms);
    if Listed(c, cats[0].mask) {
      var b :| b in c.kind * cats[0].mask;
      var j :| 0 <= j < |ms| && b in ms[j];
      assert b in c.kind * cats[j + 1].mask;
    }
    if exists j :: 1 <= j < |cats| && Listed(c, cats[j].mask) {
      var j :| 1 <= j < |cats| && Listed(c, cats[j].mask);
      var b :| b in c.kind * cats[j].mask;
      assert ms[j - 1] == cats[j].mask;
      assert b in c.kind * cats[0].mask;
    }
  }
}
