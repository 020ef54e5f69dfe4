/**
 * src/components/BuildingEditor.tsx: the list operations behind the building
 * editor and the clamp on the width and height inputs. The id of a new
 * building comes from the clock there and is a parameter here.
 */
module BuildingEditor {
  import opened Wrappers
  import opened Types

  /** `BUILDING_COLORS`: the eight palette entries, wood browns first. */
  const BuildingColors: seq<string> :=
    ["#8B4513", "#A0522D", "#696969", "#708090", "#2F4F4F", "#556B2F", "#8FBC8F", "#CD853F"]

  /** The new-building form: a template without its id. */
  datatype Form = Form(name: string, shape: Shape, width: int, height: int, color: string)

  /** The form after a reset: unnamed 8 x 8 rectangle in the first colour. */
  const EmptyForm: Form := Form("", Rectangle, 8, 8, BuildingColors[0])

  /** The result of an edit: the list handed to `onBuildingsChange` and the form afterwards. */
  datatype Edit = Edit(buildings: seq<BuildingTemplate>, form: Form)

  /**
   * The characters `String.prototype.trim` removes: the white space and line
   * terminators of ECMAScript, including the byte order mark and the Unicode
   * space separators.
   */
  predicate IsWhitespace(c: char) {
    c == ' ' || c == '\t' || c == '\n' || c == '\r' || c == '\U{000B}' || c == '\U{000C}'
    || c == '\U{00A0}' || c == '\U{1680}' || ('\U{2000}' <= c <= '\U{200A}')
    || c == '\U{2028}' || c == '\U{2029}' || c == '\U{202F}' || c == '\U{205F}'
    || c == '\U{3000}' || c == '\U{FEFF}'
  }

  /** s with its leading white space removed. */
  function TrimStart(s: string): (r: string)
    ensures exists i :: 0 <= i <= |s| && r == s[i..] && forall k :: 0 <= k < i ==> IsWhitespace(s[k])
    ensures r == [] || !IsWhitespace(r[0])
  {
    if |s| > 0 && IsWhitespace(s[0]) then
      var r := TrimStart(s[1..]);
      assert forall i :: 0 <= i <= |s| - 1 ==> s[1..][i..] == s[i + 1..];
      r
    else
      assert s == s[0..];
      s
  }

  /** s with its trailing white space removed. */
  function TrimEnd(s: string): (r: string)
    ensures exists j :: 0 <= j <= |s| && r == s[..j] && forall k :: j <= k < |s| ==> IsWhitespace(s[k])
    ensures r == [] || !IsWhitespace(r[|r| - 1])
  {
    if |s| > 0 && IsWhitespace(s[|s| - 1]) then
      var p := s[..|s| - 1];
      var r := TrimEnd(p);
      var j :| 0 <= j <= |p| && r == p[..j] && forall k :: j <= k < |p| ==> IsWhitespace(p[k]);
      assert r == s[..j];
      assert forall k :: j <= k < |s| ==> IsWhitespace(s[k]) by {
        assert forall k :: j <= k < |p| ==> p[k] == s[k];
      }
      r
    else
      assert s == s[..|s|];
      s
  }

  /** `s.trim()`. */
  function Trim(s: string): string {
    TrimEnd(TrimStart(s))
  }

  /** A name is blank after trimming exactly when it is made only of white space. */
  lemma TrimBlank(s: string)
    ensures Trim(s) == "" <==> forall k :: 0 <= k < |s| ==> IsWhitespace(s[k])
  {
    var t := TrimStart(s);
    var i :| 0 <= i <= |s| && t == s[i..] && forall m :: 0 <= m < i ==> IsWhitespace(s[m]);
    if !forall k :: 0 <= k < |s| ==> IsWhitespace(s[k]) {
      var k :| 0 <= k < |s| && !IsWhitespace(s[k]);
      assert i <= k;
      TrimEndNonEmpty(t);
    }
  }

  /** Text starting with a non-space character keeps it when its end is trimmed. */
  lemma TrimEndNonEmpty(t: string)
    requires t != [] && !IsWhitespace(t[0])
    ensures TrimEnd(t) != []
  {
    var j :| 0 <= j <= |t| && TrimEnd(t) == t[..j] && forall m :: j <= m < |t| ==> IsWhitespace(t[m]);
    assert 0 < j;
  }

  /** Trimmed text has no white space at either end. */
  lemma TrimEnds(s: string)
    ensures Trim(s) == [] || (!IsWhitespace(Trim(s)[0]) && !IsWhitespace(Trim(s)[|Trim(s)| - 1]))
  {
    var t := TrimStart(s);
    var j :| 0 <= j <= |t| && Trim(s) == t[..j];
    if Trim(s) != [] {
      assert Trim(s)[0] == t[0];
    }
  }

  /**
   * `addBuilding`: when the trimmed name is not empty, appends the form as a
   * template with the given id and resets the form; the stored name is the
   * untrimmed one.
   */
  function AddBuilding(buildings: seq<BuildingTemplate>, f: Form, id: string): (e: Edit)
    ensures e == Edit(buildings, f) || e == Edit(buildings + [BuildingTemplate(id, f.name, f.shape, f.width, f.height, f.color)], EmptyForm)
  {
    if Trim(f.name) == "" then Edit(buildings, f)
    else Edit(buildings + [BuildingTemplate(id, f.name, f.shape, f.width, f.height, f.color)], EmptyForm)
  }

  /**
   * A blank name changes nothing; any other appends exactly one building
   * carrying the form's fields and the id, keeps the earlier buildings in
   * place and resets the form.
   */
  lemma AddBuildingSpec(buildings: seq<BuildingTemplate>, f: Form, id: string)
    ensures var e := AddBuilding(buildings, f, id);
      && ((forall k :: 0 <= k < |f.name| ==> IsWhitespace(f.name[k])) ==> e == Edit(buildings, f))
      && ((exists k :: 0 <= k < |f.name| && !IsWhitespace(f.name[k])) ==>
            && |e.buildings| == |buildings| + 1
            && e.buildings[..|buildings|] == buildings
            && e.buildings[|buildings|] == BuildingTemplate(id, f.name, f.shape, f.width, f.height, f.color)
            && e.form == Form("", Rectangle, 8, 8, "#8B4513"))
  {
    TrimBlank(f.name);
    var e := AddBuilding(buildings, f, id);
    if Trim(f.name) != "" {
      assert e.buildings[..|buildings|] == buildings;
    }
  }

  /** Every building at least 3 cells in each dimension. */
  predicate DimensionsOk(buildings: seq<BuildingTemplate>) {
    forall k :: 0 <= k < |buildings| ==> buildings[k].width >= 3 && buildings[k].height >= 3
  }

  /** Appending a building of at least 3 x 3 keeps every building at least 3 x 3. */
  lemma AppendKeepsDimensions(buildings: seq<BuildingTemplate>, b: BuildingTemplate)
    requires DimensionsOk(buildings) && b.width >= 3 && b.height >= 3
    ensures DimensionsOk(buildings + [b])
  {
    var added := buildings + [b];
    assert forall k :: 0 <= k < |added| ==> added[k] == if k < |buildings| then buildings[k] else b;
  }

  /** A form whose dimensions came through the clamp keeps every building at least 3 x 3. */
  lemma AddBuildingKeepsDimensions(buildings: seq<BuildingTemplate>, f: Form, id: string)
    requires DimensionsOk(buildings) && f.width >= 3 && f.height >= 3
    ensures DimensionsOk(AddBuilding(buildings, f, id).buildings)
  {
    var b := BuildingTemplate(id, f.name, f.shape, f.width, f.height, f.color);
    if AddBuilding(buildings, f, id).buildings != buildings {
      AppendKeepsDimensions(buildings, b);
    }
  }

  /** `removeBuilding(id)`: `filter` keeping the buildings whose id differs. */
  function RemoveBuilding(buildings: seq<BuildingTemplate>, id: string): (r: seq<BuildingTemplate>)
    ensures |r| <= |buildings|
    ensures forall b :: b in r <==> b in buildings && b.id != id
  {
    if |buildings| == 0 then []
    else
      var last := buildings[|buildings| - 1];
      var prefix := buildings[..|buildings| - 1];
      assert buildings == prefix + [last];
      RemoveBuilding(prefix, id) + (if last.id == id then [] else [last])
  }

  /** The filter keeps order: it distributes over concatenation. */
  lemma {:induction false} RemoveBuildingAppend(a: seq<BuildingTemplate>, b: seq<BuildingTemplate>, id: string)
    ensures RemoveBuilding(a + b, id) == RemoveBuilding(a, id) + RemoveBuilding(b, id)
    decreases |b|
  {
    if |b| == 0 {
      assert a + b == a;
    } else {
      var last, init := b[|b| - 1], b[..|b| - 1];
      var kept := if last.id == id then [] else [last];
      assert (a + b)[..|a + b| - 1] == a + init && (a + b)[|a + b| - 1] == last;
      calc {
        RemoveBuilding(a + b, id);
        RemoveBuilding(a + init, id) + kept;
        { RemoveBuildingAppend(a, init, id); }
        (RemoveBuilding(a, id) + RemoveBuilding(init, id)) + kept;
        RemoveBuilding(a, id) + (RemoveBuilding(init, id) + kept);
        RemoveBuilding(a, id) + RemoveBuilding(b, id);
      }
    }
  }

  /** A list without the id is left as it is; so removing twice is removing once. */
  lemma {:induction false} RemoveBuildingAbsent(buildings: seq<BuildingTemplate>, id: string)
    requires forall k :: 0 <= k < |buildings| ==> buildings[k].id != id
    ensures RemoveBuilding(buildings, id) == buildings
  {
    if |buildings| > 0 {
      RemoveBuildingAbsent(buildings[..|buildings| - 1], id);
    }
  }

  lemma RemoveBuildingIdempotent(buildings: seq<BuildingTemplate>, id: string)
    ensures RemoveBuilding(RemoveBuilding(buildings, id), id) == RemoveBuilding(buildings, id)
  {
    var r := RemoveBuilding(buildings, id);
    assert forall k :: 0 <= k < |r| ==> r[k] in r;
    RemoveBuildingAbsent(r, id);
  }

  /**
   * The width and height inputs: `Math.max(3, parseInt(value) || 3)`, where a
   * failed parse (NaN, here None) and 0 both fall back to 3. Always at least
   * 3, and any parsed value of 3 or more is kept.
   */
  function ClampDimension(parsed: Option<int>): (r: int)
    ensures r >= 3
    ensures parsed.Some? && parsed.value >= 3 ==> r == parsed.value
    ensures !(parsed.Some? && parsed.value >= 3) ==> r == 3
  {
    var v := if parsed.Some? && parsed.value != 0 then parsed.value else 3;
    if 3 > v then 3 else v
  }

  /** The clamp is idempotent: a stored dimension typed in again is kept. */
  lemma ClampIdempotent(parsed: Option<int>)
    ensures ClampDimension(Some(ClampDimension(parsed))) == ClampDimension(parsed)
  {
  }

  /** The width input: the form with its width clamped. */
  function EditWidth(f: Form, parsed: Option<int>): (g: Form)
    ensures g.width >= 3 && g == f.(width := g.width)
    ensures g.width == ClampDimension(parsed)
  {
    f.(width := ClampDimension(parsed))
  }

  /** The height input: the form with its height clamped. */
  function EditHeight(f: Form, parsed: Option<int>): (g: Form)
    ensures g.height >= 3 && g == f.(height := g.height)
    ensures g.height == ClampDimension(parsed)
  {
    f.(height := ClampDimension(parsed))
  }

  /** The reset form satisfies the same bound, so every form the inputs reach does. */
  lemma EmptyFormDimensions()
    ensures EmptyForm.width >= 3 && EmptyForm.height >= 3 && EmptyForm.color == "#8B4513"
  {
  }
}
