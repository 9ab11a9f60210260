/** The string building of `spi.display_sequence`: a three-state machine
    (unknown, low, high) that draws a level string as two text lines, one
    pair of box-drawing glyphs per level. Printing is not modelled. */
module Display {
  import opened Results

  /** The machine's state: the last level drawn, `"U"` before any. */
  datatype Level = Unknown | Low | High

  /** The top-line and bottom-line glyphs drawn for one level. */
  datatype Glyphs = Glyphs(top: string, bottom: string)

  /** Both lines of a drawing, and the state the machine ended in. */
  datatype Picture = Picture(state: Level, top: string, bottom: string)

  /** The keys of the transition table: `'0'`, `'1'` and `'U'`. */
  function LevelOf(c: char): Option<Level> {
    if c == '0' then Some(Low)
    else if c == '1' then Some(High)
    else if c == 'U' then Some(Unknown)
    else None
  }

  /** `level_to_level[from][to]`. There is no entry from a known level back
      to `U`. */
  function Transition(from: Level, to: Level): (r: Option<Glyphs>)
    ensures r.Some? <==> from == Unknown || to != Unknown
    ensures r.Some? ==> |r.value.top| == 2 && |r.value.bottom| == 2
  {
    match (from, to)
    case (Unknown, Low) => Some(Glyphs("\U{2510} ", "\U{2534}\U{2500}"))
    case (Unknown, High) => Some(Glyphs("\U{252C}\U{2500}", "\U{2518} "))
    case (Unknown, Unknown) => Some(Glyphs("\U{2504}\U{2504}", "\U{2504}\U{2504}"))
    case (Low, Low) => Some(Glyphs("  ", "\U{2500}\U{2500}"))
    case (Low, High) => Some(Glyphs("\U{250C}\U{2500}", "\U{2518} "))
    case (High, Low) => Some(Glyphs("\U{2510} ", "\U{2514}\U{2500}"))
    case (High, High) => Some(Glyphs("\U{2500}\U{2500}", "  "))
    case (_, Unknown) => None
  }

  /** The dotted glyph both lines start with. */
  const Start: string := "\U{2504}"

  /** The state after reading all of `sq`: its last character, or `U` when
      `sq` is empty. */
  function StateAfter(sq: string): Level {
    if |sq| == 0 then Unknown else LevelOf(sq[|sq| - 1]).GetOr(Unknown)
  }

  /** The strings the table accepts: only `'0'`, `'1'` and `'U'`, and a `'U'`
      only while nothing but `'U'` has come before it. */
  predicate Drawable(sq: string) {
    && (forall i :: 0 <= i < |sq| ==> LevelOf(sq[i]).Some?)
    && (forall i, j :: 0 <= i < j < |sq| && sq[j] == 'U' ==> sq[i] == 'U')
  }

  /** The loop of `display_sequence`; `None` where the table lookup raises
      `KeyError`. A drawing is two glyphs wide per character plus the start
      glyph, and ends in the state of the last character. */
  function Render(sq: string): (r: Option<Picture>)
    ensures r.Some? ==> r.value.state == StateAfter(sq)
    ensures r.Some? ==> |r.value.top| == |r.value.bottom| == 1 + 2 * |sq|
    ensures r.Some? ==> r.value.top[..1] == r.value.bottom[..1] == Start
  {
    if |sq| == 0 then Some(Picture(Unknown, Start, Start))
    else
      var prefix := sq[..|sq| - 1];
      match Render(prefix)
      case None => None
      case Some(p) =>
        match LevelOf(sq[|sq| - 1])
        case None => None
        case Some(level) =>
          match Transition(p.state, level)
          case None => None
          case Some(g) => Some(Picture(level, p.top + g.top, p.bottom + g.bottom))
  }

  /** A drawable prefix whose state is still unknown holds only `'U'`. */
  lemma {:induction false} UnknownPrefix(sq: string)
    requires Drawable(sq)
    ensures StateAfter(sq) == Unknown <==> forall i :: 0 <= i < |sq| ==> sq[i] == 'U'
  {
    if |sq| > 0 {
      var last := |sq| - 1;
      assert LevelOf(sq[last]).Some?;
      if sq[last] == 'U' {
        assert forall i :: 0 <= i < last ==> sq[i] == 'U';
      }
    }
  }

  /** A drawing is produced exactly for the drawable strings. */
  lemma {:induction false} RenderAccepts(sq: string)
    ensures Render(sq).Some? <==> Drawable(sq)
  {
    if |sq| > 0 {
      var prefix := sq[..|sq| - 1];
      var c := sq[|sq| - 1];
      RenderAccepts(prefix);
      assert Drawable(sq) ==> Drawable(prefix) by {
        if Drawable(sq) {
          assert forall i :: 0 <= i < |prefix| ==> prefix[i] == sq[i];
        }
      }
      if Drawable(sq) {
        UnknownPrefix(prefix);
        assert LevelOf(c).Some?;
        if c == 'U' {
          assert forall i :: 0 <= i < |prefix| ==> prefix[i] == 'U';
        }
      } else if Drawable(prefix) && LevelOf(c).Some? {
        UnknownPrefix(prefix);
        var i, j :| 0 <= i < j < |sq| && sq[j] == 'U' && sq[i] != 'U';
        assert j == |sq| - 1;
        assert prefix[i] != 'U';
      }
    }
  }

  /** Character `i` draws the table entry for the move from the state
      before it to its level. */
  lemma {:induction false} RenderGlyphs(sq: string, i: nat)
    requires Render(sq).Some?
    requires i < |sq|
    ensures Transition(StateAfter(sq[..i]), LevelOf(sq[i]).GetOr(Unknown))
            == Some(Glyphs(Render(sq).value.top[1 + 2 * i..3 + 2 * i],
                           Render(sq).value.bottom[1 + 2 * i..3 + 2 * i]))
  {
    var prefix := sq[..|sq| - 1];
    var p := Render(prefix).value;
    var r := Render(sq).value;
    assert r.top[..|p.top|] == p.top && r.bottom[..|p.bottom|] == p.bottom;
    if i < |prefix| {
      RenderGlyphs(prefix, i);
      assert prefix[..i] == sq[..i];
      assert r.top[1 + 2 * i..3 + 2 * i] == p.top[1 + 2 * i..3 + 2 * i];
      assert r.bottom[1 + 2 * i..3 + 2 * i] == p.bottom[1 + 2 * i..3 + 2 * i];
    } else {
      assert prefix == sq[..i];
      var g := Transition(p.state, LevelOf(sq[i]).value).value;
      assert r.top == p.top + g.top && r.bottom == p.bottom + g.bottom;
      assert r.top[1 + 2 * i..3 + 2 * i] == g.top;
      assert r.bottom[1 + 2 * i..3 + 2 * i] == g.bottom;
    }
  }

  /** A level sequence spelled with `'0'` and `'1'`, as the program stores
      it. */
  function LevelString(levels: seq<bool>): (r: string)
    ensures |r| == |levels|
    ensures forall i :: 0 <= i < |r| ==> r[i] == (if levels[i] then '1' else '0')
  {
    if |levels| == 0 then [] else [if levels[0] then '1' else '0'] + LevelString(levels[1..])
  }

  /** Every level sequence of a transfer can be drawn. */
  lemma LevelsDrawable(levels: seq<bool>)
    ensures Render(LevelString(levels)).Some?
    ensures |Render(LevelString(levels)).value.top| == 1 + 2 * |levels|
  {
    RenderAccepts(LevelString(levels));
  }
}
