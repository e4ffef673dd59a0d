/** What each question type accepts and which complaint it raises, in terms of the raw answer and
    the raw props. */
module Acceptance {
  import opened Base
  import opened Schema
  import opened Handlers
  import IdCard

  // ---------- text ----------

  /** Lengths add up; a character outside the basic plane counts twice. */
  lemma {:induction false} Utf16Units(s: string, t: string, c: char)
    ensures Utf16Len(s + t) == Utf16Len(s) + Utf16Len(t)
    ensures Utf16Len([c]) == if c as int < 0x1_0000 then 1 else 2
  {
    if s == [] {
      assert s + t == t;
    } else {
      assert (s + t)[1..] == s[1..] + t;
      Utf16Units(s[1..], t, c);
    }
  }

  ghost predicate MeetsFormat(s: string, f: Format) {
    match f
    case Plain => true
    case IdentityCard => IdCard.Valid(s)
    case Checked(accepts) => accepts(s)
  }

  /** A text passes iff it is a string with min <= length <= max, both inclusive, of its format. */
  lemma TextAcceptedExactly(r: TextRules, required: bool, a: Json)
    ensures Accepts(TextInput(r), required, a) <==>
            && a.Str?
            && (r.minLength.Some? ==> r.minLength.value <= Utf16Len(a.str))
            && (r.maxLength.Some? ==> Utf16Len(a.str) <= r.maxLength.value)
            && MeetsFormat(a.str, r.format)
    ensures Accepts(Textarea(r.minLength, r.maxLength), required, a) <==>
            Accepts(TextInput(TextRules(Plain, r.minLength, r.maxLength)), required, a)
  {
  }

  /** The complaint is about the type, then too many characters, then too few, then the format. */
  lemma TextComplaint(r: TextRules, required: bool, a: Json, p: Problem)
    requires Verdict(TextInput(r), required, a, p)
    ensures p == if !a.Str? then BadShape
                 else if r.maxLength.Some? && Utf16Len(a.str) > r.maxLength.value then TooLong
                 else if r.minLength.Some? && Utf16Len(a.str) < r.minLength.value then TooShort
                 else if !MeetsFormat(a.str, r.format) then BadFormat
                 else Fine
  {
  }

  // ---------- dropdown and scale ----------

  lemma DropdownAcceptedExactly(values: seq<string>, required: bool, a: Json)
    ensures Accepts(Dropdown(values), required, a) <==> a == Str("") || exists i :: 0 <= i < |values| && a == Str(values[i])
  {
  }

  lemma FloorBetween(x: real, k: int)
    ensures k as real <= x < (k + 1) as real ==> x.Floor == k
  {
  }

  /** Whole numbers from min to max, both included; 1 to 5 unless set. Nothing between two whole
      numbers, and nothing that is no number. */
  lemma {:induction false} ScaleAcceptedExactly(lo: Option<real>, hi: Option<real>, required: bool, a: Json, k: int)
    ensures Accepts(Scale(lo, hi), required, Num(k as real)) <==>
            && k as real >= (match lo case Some(x) => x case None => 1.0)
            && k as real <= (match hi case Some(x) => x case None => 5.0)
    ensures a.Num? && k as real < a.num < (k + 1) as real ==> !Accepts(Scale(lo, hi), required, a)
    ensures !a.Num? ==> !Accepts(Scale(lo, hi), required, a)
  {
    FloorBetween(k as real, k);
    if a.Num? {
      FloorBetween(a.num, k);
    }
  }

  /** A type that is not registered is never found fault with. */
  lemma UnregisteredPasses(required: bool, a: Json, p: Problem)
    ensures Accepts(Unregistered, required, a)
    ensures Verdict(Unregistered, required, a, p) ==> p == Fine
  {
  }

  // ---------- choices ----------

  /** An answer names a value, bare or in an object; a text in the object comes along. */
  ghost predicate Names(a: Json, value: string, text: string) {
    || (a == Str(value) && text == "")
    || (a.Obj? && "value" in a.fields && a.fields["value"] == Str(value)
        && (if "text" in a.fields && a.fields["text"].Str? then a.fields["text"] == Str(text) else text == ""))
  }

  lemma NamesIsRead(a: Json, value: string, text: string)
    ensures Names(a, value, text) <==> ReadPick(a) == Some(Pick(value, text))
  {
  }

  /** The option's fill-in, if it has one that is on and required, is met by a text that is more
      than white space. */
  ghost predicate Filled(o: ChoiceOption, text: string) {
    o.fill == NoFill || !o.fill.enabled || !o.fill.required || exists i :: 0 <= i < |text| && !IsSpace(text[i])
  }

  lemma FilledIsOk(o: ChoiceOption, text: string)
    ensures Filled(o, text) <==> FillOk(o, text)
  {
  }

  /** White space is what strings.TrimSpace takes away: blanks, line ends and tabs, never letters,
      digits or signs. */
  lemma WhiteSpace(c: char)
    ensures c == ' ' || c == '\t' || c == '\n' || c == '\r' ==> IsSpace(c)
    ensures '!' <= c <= '~' ==> !IsSpace(c)
  {
  }

  ghost predicate FirstWith(options: seq<ChoiceOption>, value: string, i: nat) {
    i < |options| && options[i].value == value && forall j :: 0 <= j < i ==> options[j].value != value
  }

  ghost predicate LastWith(options: seq<ChoiceOption>, value: string, i: nat) {
    i < |options| && options[i].value == value && forall j :: i < j < |options| ==> options[j].value != value
  }

  /** A single choice passes iff the first option of the named value is filled in as it asks. */
  lemma SingleAcceptedExactly(options: seq<ChoiceOption>, required: bool, a: Json)
    ensures Accepts(SingleChoice(options), required, a) <==>
            exists value, text, i: nat :: Names(a, value, text) && FirstWith(options, value, i) && Filled(options[i], text)
  {
    forall value, text ensures Names(a, value, text) <==> ReadPick(a) == Some(Pick(value, text)) {
      NamesIsRead(a, value, text);
    }
    if ReadPick(a).Some? {
      var pick := ReadPick(a).value;
      forall i: nat | FirstWith(options, pick.value, i)
        ensures FirstOption(options, pick.value, i) && (Filled(options[i], pick.text) <==> FillOk(options[i], pick.text))
      {
        FilledIsOk(options[i], pick.text);
      }
      if Accepts(SingleChoice(options), required, a) {
        var i: nat :| FirstOption(options, pick.value, i) && FillOk(options[i], pick.text);
        assert FirstWith(options, pick.value, i) && Names(a, pick.value, pick.text);
      }
    }
  }

  /** The complaint: no value named, no such option, or its text missing. */
  lemma SingleComplaint(options: seq<ChoiceOption>, required: bool, a: Json, p: Problem)
    requires Verdict(SingleChoice(options), required, a, p)
    ensures p == BadShape <==> forall value, text :: !Names(a, value, text)
    ensures p == UnknownOption <==> exists value, text :: Names(a, value, text) && forall o :: o in options ==> o.value != value
    ensures p == BadShape || p == UnknownOption || p == FillMissing || p == Fine
  {
    forall value, text ensures Names(a, value, text) <==> ReadPick(a) == Some(Pick(value, text)) {
      NamesIsRead(a, value, text);
    }
    if ReadPick(a).Some? {
      var pick := ReadPick(a).value;
      assert Names(a, pick.value, pick.text);
      assert Offers(options, pick.value) <==> !(forall o :: o in options ==> o.value != pick.value);
    }
  }

  lemma {:induction false} LastWithDecides(options: seq<ChoiceOption>, value: string, i: nat)
    requires LastWith(options, value, i)
    ensures value in OptionMap(options) && OptionMap(options)[value] == options[i]
  {
    var n := |options| - 1;
    if i < n {
      assert options[..n][i] == options[i];
      LastWithDecides(options[..n], value, i);
    }
  }

  lemma {:induction false} LastWithExists(options: seq<ChoiceOption>, value: string) returns (i: nat)
    requires value in OptionMap(options)
    ensures LastWith(options, value, i)
  {
    var n := |options| - 1;
    if options[n].value == value {
      i := n;
    } else {
      i := LastWithExists(options[..n], value);
    }
  }

  /** One pick of several is good iff the last option of its value is filled in as it asks. */
  ghost predicate GoodPick(options: seq<ChoiceOption>, el: Json) {
    exists value, text, i: nat :: Names(el, value, text) && LastWith(options, value, i) && Filled(options[i], text)
  }

  lemma GoodPickIsFine(options: seq<ChoiceOption>, el: Json)
    ensures GoodPick(options, el) <==> PickProblem(options, el) == Fine
  {
    if value, text, i: nat :| Names(el, value, text) && LastWith(options, value, i) && Filled(options[i], text) {
      NamesIsRead(el, value, text);
      LastWithDecides(options, value, i);
      FilledIsOk(options[i], text);
    }
    if PickProblem(options, el) == Fine {
      var pick := ReadPick(el).value;
      var i := LastWithExists(options, pick.value);
      LastWithDecides(options, pick.value, i);
      NamesIsRead(el, pick.value, pick.text);
      FilledIsOk(options[i], pick.text);
    }
  }

  ghost predicate SameValue(el: Json, other: Json) {
    exists value, text, words :: Names(el, value, text) && Names(other, value, words)
  }

  lemma SameValueIsRead(el: Json, other: Json)
    ensures SameValue(el, other) <==>
            ReadPick(el).Some? && ReadPick(other).Some? && ReadPick(el).value.value == ReadPick(other).value.value
  {
    if value, text, words :| Names(el, value, text) && Names(other, value, words) {
      NamesIsRead(el, value, text);
      NamesIsRead(other, value, words);
    }
    if ReadPick(el).Some? && ReadPick(other).Some? && ReadPick(el).value.value == ReadPick(other).value.value {
      NamesIsRead(el, ReadPick(el).value.value, ReadPick(el).value.text);
      NamesIsRead(other, ReadPick(other).value.value, ReadPick(other).value.text);
    }
  }

  lemma PicksFacts(options: seq<ChoiceOption>, items: seq<Json>)
    ensures (forall i :: 0 <= i < |items| ==> GoodPick(options, items[i])) <==>
            (forall i :: 0 <= i < |items| ==> PickProblem(options, items[i]) == Fine)
    ensures PicksRead(items) ==>
              (Distinct(PickValues(items)) <==> forall i, j :: 0 <= i < j < |items| ==> !SameValue(items[i], items[j]))
  {
    forall i | 0 <= i < |items| ensures GoodPick(options, items[i]) <==> PickProblem(options, items[i]) == Fine {
      GoodPickIsFine(options, items[i]);
    }
    if PicksRead(items) {
      forall i, j | 0 <= i < j < |items| ensures SameValue(items[i], items[j]) <==> PickValues(items)[i] == PickValues(items)[j] {
        SameValueIsRead(items[i], items[j]);
      }
    }
  }

  /** Several choices pass iff they are an array of good picks, no value twice, between min and max
      of them, and at least one if the question is required. */
  lemma MultiAcceptedExactly(options: seq<ChoiceOption>, min: Option<int>, max: Option<int>, required: bool, a: Json)
    ensures Accepts(MultiChoice(options, min, max), required, a) <==>
            && a.Arr?
            && (required ==> |a.items| > 0)
            && (forall i :: 0 <= i < |a.items| ==> GoodPick(options, a.items[i]))
            && (forall i, j :: 0 <= i < j < |a.items| ==> !SameValue(a.items[i], a.items[j]))
            && (min.Some? ==> min.value <= |a.items|) && (max.Some? ==> |a.items| <= max.value)
  {
    if a.Arr? {
      PicksFacts(options, a.items);
    }
  }

  /** The complaint: the shape, nothing picked, a bad pick, a repeated one, too few, too many. */
  lemma MultiComplaint(options: seq<ChoiceOption>, min: Option<int>, max: Option<int>, required: bool, a: Json, p: Problem)
    requires Verdict(MultiChoice(options, min, max), required, a, p)
    ensures if !a.Arr? then p == BadShape
            else if required && |a.items| == 0 then p == RequiredMissing
            else if exists i :: 0 <= i < |a.items| && !GoodPick(options, a.items[i]) then p == UnknownOption || p == FillMissing
            else if exists i, j :: 0 <= i < j < |a.items| && SameValue(a.items[i], a.items[j]) then p == Duplicate
            else if min.Some? && |a.items| < min.value then p == TooFew
            else if max.Some? && |a.items| > max.value then p == TooMany
            else p == Fine
  {
    if a.Arr? {
      PicksFacts(options, a.items);
    }
  }

  /** One bad pick on its own: no value named or none such, or its text missing. */
  lemma PickComplaint(options: seq<ChoiceOption>, el: Json, p: Problem)
    requires Verdict(MultiChoice(options, None, None), false, Arr([el]), p)
    ensures !GoodPick(options, el) ==>
              p == if exists value, text, i: nat :: Names(el, value, text) && LastWith(options, value, i) then FillMissing else UnknownOption
  {
    PicksFacts(options, [el]);
    assert GoodPick(options, [el][0]) <==> PickProblem(options, [el][0]) == Fine by {
      GoodPickIsFine(options, el);
    }
    if value, text, i: nat :| Names(el, value, text) && LastWith(options, value, i) {
      NamesIsRead(el, value, text);
      LastWithDecides(options, value, i);
    }
    if ReadPick(el).Some? && ReadPick(el).value.value in OptionMap(options) {
      var i := LastWithExists(options, ReadPick(el).value.value);
      NamesIsRead(el, ReadPick(el).value.value, ReadPick(el).value.text);
    }
  }

  /** Of several bad picks the first is the one complained about. */
  lemma FirstBadPickTold(options: seq<ChoiceOption>, min: Option<int>, max: Option<int>, required: bool, items: seq<Json>, k: nat, p: Problem)
    requires Verdict(MultiChoice(options, min, max), required, Arr(items), p)
    requires k < |items| && !GoodPick(options, items[k]) && forall i :: 0 <= i < k ==> GoodPick(options, items[i])
    ensures Verdict(MultiChoice(options, None, None), false, Arr([items[k]]), p)
  {
    forall i | 0 <= i < |items| ensures GoodPick(options, items[i]) <==> PickProblem(options, items[i]) == Fine {
      GoodPickIsFine(options, items[i]);
    }
    assert [items[k]][0] == items[k];
  }

  // ---------- matrices and blanks ----------

  /** The cells of an answer; anything but an object has none. */
  ghost function Cells(a: Json): map<string, Json> {
    match a
    case Obj(m) => m
    case _ => map[]
  }

  ghost predicate Text(cells: map<string, Json>, id: string) {
    id in cells && cells[id].Str? && cells[id] != Str("")
  }

  lemma GridAcceptedIs(kind: Kind, required: bool, a: Json)
    requires IsGrid(kind)
    ensures Accepts(kind, required, a) <==>
            && (forall id :: id in Cells(a) ==> CellSkipped(kind, Cells(a)[id]) || CellOk(kind, id, Cells(a)[id]))
            && (required ==> forall id :: id in ItemIds(kind) ==> CellComplete(kind, Lookup(Cells(a), id)))
  {
    assert Cells(a) == ReadCells(a);
  }

  /** Text cells are picks of a listed row and column; other cells are ignored; a required matrix
      has a pick in every row. */
  lemma MatrixSingleAcceptedExactly(rows: seq<string>, columns: seq<string>, required: bool, a: Json)
    ensures Accepts(MatrixSingle(rows, columns), required, a) <==>
            && (forall id :: Text(Cells(a), id) ==> id in rows && Cells(a)[id].str in columns)
            && (required ==> forall id :: id in rows ==> Text(Cells(a), id))
  {
    GridAcceptedIs(MatrixSingle(rows, columns), required, a);
    assert forall id :: Text(Cells(a), id) <==> StrAnswered(Lookup(Cells(a), id));
  }

  lemma MatrixScaleAcceptedExactly(rows: seq<string>, scored: seq<ScoredColumn>, required: bool, a: Json)
    ensures Accepts(MatrixScale(rows, scored), required, a) <==>
            && (forall id :: Text(Cells(a), id) ==>
                  id in rows && exists k :: 0 <= k < |scored| && scored[k].value == Cells(a)[id].str)
            && (required ==> forall id :: id in rows ==> Text(Cells(a), id))
  {
    GridAcceptedIs(MatrixScale(rows, scored), required, a);
    assert forall id :: Text(Cells(a), id) <==> StrAnswered(Lookup(Cells(a), id));
    forall s ensures s in ColumnValues(scored) <==> exists k :: 0 <= k < |scored| && scored[k].value == s {
      if s in ColumnValues(scored) {
        var k :| 0 <= k < |scored| && ColumnValues(scored)[k] == s;
        assert scored[k].value == s;
      }
      if k :| 0 <= k < |scored| && scored[k].value == s {
        assert ColumnValues(scored)[k] == s;
      }
    }
  }

  ghost predicate Blank(cells: map<string, Json>, id: string) {
    id !in cells || cells[id] == Null || cells[id] == Str("")
  }

  lemma MatrixFillAcceptedExactly(rows: seq<string>, maxLength: Option<int>, required: bool, a: Json)
    ensures Accepts(MatrixFill(rows, maxLength), required, a) <==>
            && (forall id :: !Blank(Cells(a), id) ==>
                  && id in rows && Cells(a)[id].Str?
                  && (maxLength.Some? ==> Utf16Len(Cells(a)[id].str) <= maxLength.value))
            && (required ==> forall id :: id in rows ==> Text(Cells(a), id))
  {
    GridAcceptedIs(MatrixFill(rows, maxLength), required, a);
    assert forall id :: Text(Cells(a), id) <==> StrAnswered(Lookup(Cells(a), id));
  }

  /** Numbers of a listed row from min to max, both included; 0 to 100 unless set. */
  lemma MatrixSliderAcceptedExactly(rows: seq<string>, lo: Option<real>, hi: Option<real>, required: bool, a: Json)
    ensures Accepts(MatrixSlider(rows, lo, hi), required, a) <==>
            && (forall id :: id in Cells(a) && Cells(a)[id] != Null ==>
                  && id in rows && Cells(a)[id].Num?
                  && Cells(a)[id].num >= (match lo case Some(x) => x case None => 0.0)
                  && Cells(a)[id].num <= (match hi case Some(x) => x case None => 100.0))
            && (required ==> forall id :: id in rows ==> id in Cells(a) && Cells(a)[id].Num?)
  {
    GridAcceptedIs(MatrixSlider(rows, lo, hi), required, a);
    assert forall id :: id in Cells(a) && Cells(a)[id].Num? <==> Lookup(Cells(a), id).Num?;
  }

  ghost predicate GoodRow(columns: seq<string>, min: Option<int>, max: Option<int>, v: Json) {
    && v.Arr?
    && (forall i :: 0 <= i < |v.items| ==> v.items[i].Str? && v.items[i].str in columns)
    && (forall i, j :: 0 <= i < j < |v.items| ==> v.items[i] != v.items[j])
    && (min.Some? ==> min.value <= |v.items|) && (max.Some? ==> |v.items| <= max.value)
  }

  lemma GoodRowIsOk(columns: seq<string>, min: Option<int>, max: Option<int>, items: seq<Json>)
    ensures GoodRow(columns, min, max, Arr(items)) <==> RowPicksOk(columns, min, max, items)
  {
    if AllStrings(items) {
      forall i, j | 0 <= i < j < |items| ensures items[i] == items[j] <==> Strings(items)[i] == Strings(items)[j] {
      }
    }
  }

  /** Non-empty rows hold listed columns, none twice, between min and max of them; empty rows are
      passed over unless the matrix is required. */
  lemma MatrixMultiAcceptedExactly(rows: seq<string>, columns: seq<string>, min: Option<int>, max: Option<int>, required: bool, a: Json)
    ensures Accepts(MatrixMulti(rows, columns, min, max), required, a) <==>
            && (forall id :: id in Cells(a) && Cells(a)[id] != Null && Cells(a)[id] != Arr([]) ==>
                  id in rows && GoodRow(columns, min, max, Cells(a)[id]))
            && (required ==> forall id :: id in rows ==> id in Cells(a) && Cells(a)[id].Arr? && Cells(a)[id].items != [])
  {
    GridAcceptedIs(MatrixMulti(rows, columns, min, max), required, a);
    assert forall id :: id in Cells(a) && Cells(a)[id].Arr? <==> Lookup(Cells(a), id).Arr?;
    forall id | id in Cells(a) && Cells(a)[id].Arr?
      ensures GoodRow(columns, min, max, Cells(a)[id]) <==> RowPicksOk(columns, min, max, Cells(a)[id].items)
    {
      GoodRowIsOk(columns, min, max, Cells(a)[id].items);
    }
  }

  ghost predicate LastBlank(blanks: seq<Schema.Blank>, id: string, k: nat) {
    k < |blanks| && blanks[k].id == id && forall j :: k < j < |blanks| ==> blanks[j].id != id
  }

  lemma {:induction false} LastBlankDecides(blanks: seq<Schema.Blank>, id: string, k: nat)
    requires LastBlank(blanks, id, k)
    ensures id in BlankMap(blanks) && BlankMap(blanks)[id] == blanks[k]
  {
    var n := |blanks| - 1;
    if k < n {
      assert blanks[..n][k] == blanks[k];
      LastBlankDecides(blanks[..n], id, k);
    }
  }

  lemma {:induction false} LastBlankExists(blanks: seq<Schema.Blank>, id: string) returns (k: nat)
    requires id in BlankMap(blanks)
    ensures LastBlank(blanks, id, k)
  {
    var n := |blanks| - 1;
    if blanks[n].id == id {
      k := n;
    } else {
      k := LastBlankExists(blanks[..n], id);
    }
  }

  /** A filled blank is one of the question's, and its text meets the rules of the last blank of
      that id as a text question's would; a required question has every blank filled. */
  lemma MultiFillAcceptedExactly(blanks: seq<Schema.Blank>, required: bool, a: Json)
    ensures Accepts(MultiFill(blanks), required, a) <==>
            && (forall id :: !Blank(Cells(a), id) ==>
                  exists k: nat :: LastBlank(blanks, id, k) && Accepts(TextInput(blanks[k].rules), required, Cells(a)[id]))
            && (required ==> forall k :: 0 <= k < |blanks| ==> Text(Cells(a), blanks[k].id))
  {
    GridAcceptedIs(MultiFill(blanks), required, a);
    assert forall id :: Text(Cells(a), id) <==> StrAnswered(Lookup(Cells(a), id));
    forall id | id in Cells(a)
      ensures id in BlankMap(blanks) && TextAccepts(Cells(a)[id], BlankMap(blanks)[id].rules) <==>
              exists k: nat :: LastBlank(blanks, id, k) && Accepts(TextInput(blanks[k].rules), required, Cells(a)[id])
    {
      if id in BlankMap(blanks) {
        var k := LastBlankExists(blanks, id);
        LastBlankDecides(blanks, id, k);
      }
      if k: nat :| LastBlank(blanks, id, k) && Accepts(TextInput(blanks[k].rules), required, Cells(a)[id]) {
        LastBlankDecides(blanks, id, k);
      }
    }
    assert (forall id :: id in BlankIds(blanks) ==> Text(Cells(a), id)) <==>
           (forall k :: 0 <= k < |blanks| ==> Text(Cells(a), blanks[k].id)) by {
      assert forall k :: 0 <= k < |blanks| ==> BlankIds(blanks)[k] == blanks[k].id;
    }
  }

  // ---------- complaints about cells ----------

  /** What one cell on its own is told. */
  ghost predicate CellTold(kind: Kind, id: string, v: Json, p: Problem) {
    Verdict(kind, false, Obj(map[id := v]), p)
  }

  /** A faulty answer map is told what one of its faulty cells would be told alone; only when no
      cell is at fault can a required item be reported missing. */
  lemma {:induction false} ComplaintIsOfACell(kind: Kind, required: bool, a: Json, p: Problem)
    requires IsGrid(kind) && Verdict(kind, required, a, p)
    ensures p != Fine && p != ItemMissing ==>
              exists id :: id in Cells(a) && CellTold(kind, id, Cells(a)[id], p)
    ensures p == ItemMissing ==> required && forall id :: id in Cells(a) ==> CellTold(kind, id, Cells(a)[id], Fine)
  {
    var cells := Cells(a);
    VerdictIsGrid(kind, required, a, p);
    if !CleanCells(kind, cells) {
      var id :| id in cells && CellProblem(kind, id, cells[id]) == p;
      OneCellVerdict(kind, id, cells[id]);
      NeverItemMissing(kind, id, cells[id]);
    } else if p == ItemMissing {
      forall id | id in cells ensures CellTold(kind, id, cells[id], Fine) {
        OneCellVerdict(kind, id, cells[id]);
      }
    }
  }

  lemma VerdictIsGrid(kind: Kind, required: bool, a: Json, p: Problem)
    requires IsGrid(kind)
    ensures Verdict(kind, required, a, p) <==> GridVerdict(kind, required, Cells(a), p)
  {
    assert Cells(a) == ReadCells(a);
  }

  lemma NeverItemMissing(kind: Kind, id: string, v: Json)
    requires IsGrid(kind)
    ensures CellProblem(kind, id, v) != ItemMissing
  {
  }

  lemma {:induction false} OneCellVerdict(kind: Kind, id: string, v: Json)
    requires IsGrid(kind)
    ensures CellTold(kind, id, v, CellProblem(kind, id, v))
    ensures forall p :: CellTold(kind, id, v, p) ==> p == CellProblem(kind, id, v)
  {
    var cells := map[id := v];
    assert ReadCells(Obj(cells)) == cells;
    assert CleanCells(kind, cells) <==> CellProblem(kind, id, v) == Fine by {
      assert id in cells;
    }
  }

  /** Picks: the row before the column. */
  lemma PickCellTold(rows: seq<string>, columns: seq<string>, scored: seq<ScoredColumn>, id: string, v: Json, p: Problem)
    requires columns == ColumnValues(scored)
    requires CellTold(MatrixSingle(rows, columns), id, v, p) || CellTold(MatrixScale(rows, scored), id, v, p)
    ensures p == if !v.Str? || v == Str("") then Fine
                 else if id !in rows then ForeignItem
                 else if v.str in columns then Fine else UnknownOption
  {
    OneCellVerdict(MatrixSingle(rows, columns), id, v);
    OneCellVerdict(MatrixScale(rows, scored), id, v);
  }

  /** Several picks: the shape, the row, then unknown, repeated, too few and too many. */
  lemma PicksCellTold(rows: seq<string>, columns: seq<string>, min: Option<int>, max: Option<int>, id: string, v: Json, p: Problem)
    requires CellTold(MatrixMulti(rows, columns, min, max), id, v, p)
    ensures p == if v == Null || v == Arr([]) then Fine
                 else if !v.Arr? then BadShape
                 else if id !in rows then ForeignItem
                 else if exists i :: 0 <= i < |v.items| && !(v.items[i].Str? && v.items[i].str in columns) then UnknownOption
                 else if exists i, j :: 0 <= i < j < |v.items| && v.items[i] == v.items[j] then Duplicate
                 else if min.Some? && |v.items| < min.value then TooFew
                 else if max.Some? && |v.items| > max.value then TooMany
                 else Fine
  {
    OneCellVerdict(MatrixMulti(rows, columns, min, max), id, v);
    if v.Arr? && AllStrings(v.items) {
      forall i, j | 0 <= i < j < |v.items| ensures v.items[i] == v.items[j] <==> Strings(v.items)[i] == Strings(v.items)[j] {
      }
    }
  }

  /** Texts: the row, the type, the length. */
  lemma FillCellTold(rows: seq<string>, maxLength: Option<int>, id: string, v: Json, p: Problem)
    requires CellTold(MatrixFill(rows, maxLength), id, v, p)
    ensures p == if v == Null || v == Str("") then Fine
                 else if id !in rows then ForeignItem
                 else if !v.Str? then BadShape
                 else if maxLength.Some? && Utf16Len(v.str) > maxLength.value then TooLong
                 else Fine
  {
    OneCellVerdict(MatrixFill(rows, maxLength), id, v);
  }

  /** Sliders: the row, the type, the range. */
  lemma SliderCellTold(rows: seq<string>, lo: Option<real>, hi: Option<real>, id: string, v: Json, p: Problem)
    requires CellTold(MatrixSlider(rows, lo, hi), id, v, p)
    ensures p == if v == Null then Fine
                 else if id !in rows then ForeignItem
                 else if !v.Num? then BadShape
                 else if v.num < (match lo case Some(x) => x case None => 0.0) then OutOfRange
                 else if v.num > (match hi case Some(x) => x case None => 100.0) then OutOfRange
                 else Fine
  {
    OneCellVerdict(MatrixSlider(rows, lo, hi), id, v);
  }

  /** Blanks: the id, then as a text question of the last blank of that id would be told. */
  lemma BlankCellTold(blanks: seq<Schema.Blank>, id: string, v: Json, p: Problem)
    requires CellTold(MultiFill(blanks), id, v, p)
    ensures v == Null || v == Str("") ==> p == Fine
    ensures v != Null && v != Str("") && (forall k :: 0 <= k < |blanks| ==> blanks[k].id != id) ==> p == ForeignItem
    ensures forall k: nat :: v != Null && v != Str("") && LastBlank(blanks, id, k) ==> Verdict(TextInput(blanks[k].rules), false, v, p)
  {
    OneCellVerdict(MultiFill(blanks), id, v);
    if id in BlankMap(blanks) {
      var k := LastBlankExists(blanks, id);
    }
    forall k: nat | LastBlank(blanks, id, k) ensures id in BlankMap(blanks) && BlankMap(blanks)[id] == blanks[k] {
      LastBlankDecides(blanks, id, k);
    }
  }
}
