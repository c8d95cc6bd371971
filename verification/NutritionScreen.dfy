/** The result screen of the Android app: it listens for the newest document in
    `users/{uid}/nutrition_info`, skips it when it is older than eight seconds,
    and otherwise fills its text views from the document's lists of maps. */
module NutritionScreen {
  import opened Base

  /** A value inside a stored map: a string, or anything else together with the
      text its `toString` gives. */
  datatype Any = Text(s: string) | Other(rendered: string)

  /** A `Map<String, Any>`, as its entries in iteration order. */
  type Record = seq<(string, Any)>

  /** A document field read with `as? List<Map<String, Any>>`: a list, or
      something else (absent, a string, a number, ...). */
  datatype Field = Records(items: seq<Record>) | NotRecords

  /** The newest document, as the listener sees it. `timestamp` is in
      milliseconds since the epoch; None when the field is missing. */
  datatype NutritionRecord = NutritionRecord(
    timestamp: Option<int>,
    photoUrl: Option<string>,
    ingredients: Field,
    nutrientDeficiencies: Field,
    recommendations: Field)

  /** What the listener is handed: an error, or the documents of the query
      (at most one, the newest). */
  datatype Snapshot = ListenFailed | Documents(docs: seq<NutritionRecord>)

  /** The seven views. `capturedAt` is the time shown after "Captured on: ",
      None when it reads "Unknown". */
  datatype Screen = Screen(
    photoUrl: string,
    foodName: string,
    capturedAt: Option<int>,
    nutrition: string,
    missingNutrients: string,
    recommendations: string,
    carbonFootprint: string)

  // ---------------------------------------------------------------------------
  // Staleness

  const StaleAfterMillis := 8000

  /** `currentTime - dataTime > 8000`. */
  predicate IsStale(now: int, timestamp: Option<int>) {
    timestamp.Some? && now - timestamp.value > StaleAfterMillis
  }

  lemma StalenessCutoff(now: int, t: int)
    ensures !IsStale(now, None)
    ensures !IsStale(t + 8000, Some(t))
    ensures IsStale(t + 8001, Some(t))
    ensures IsStale(now, Some(t)) <==> t < now - 8000
  {
  }

  // ---------------------------------------------------------------------------
  // Reading map entries

  /** `record[key]`. */
  function Lookup(record: Record, key: string): (r: Option<Any>)
    ensures r.Some? <==> exists i :: 0 <= i < |record| && record[i].0 == key
    ensures r.Some? ==>
      exists i :: 0 <= i < |record| && record[i] == (key, r.value) && forall j :: 0 <= j < i ==> record[j].0 != key
  {
    if |record| == 0 then None
    else if record[0].0 == key then Some(record[0].1)
    else Lookup(record[1..], key)
  }

  /** `value as? String`. */
  function AsString(value: Option<Any>): (r: Option<string>)
    ensures r.Some? <==> value.Some? && value.value.Text?
  {
    match value
    case Some(Text(s)) => Some(s)
    case _ => None
  }

  function OrDefault(value: Option<string>, default: string): string {
    if value.Some? then value.value else default
  }

  /** The string under `key`, or `default` when it is missing or not a string. */
  function StringOr(record: Record, key: string, default: string): string {
    OrDefault(AsString(Lookup(record, key)), default)
  }

  /** `"$value"`. */
  function Show(value: Any): string {
    match value
    case Text(s) => s
    case Other(rendered) => rendered
  }

  /** `field as? List<Map<String, Any>> ?: emptyList()`. */
  function Items(field: Field): (items: seq<Record>)
    ensures field.NotRecords? ==> items == []
    ensures field.Records? ==> items == field.items
  {
    match field
    case Records(items) => items
    case NotRecords => []
  }

  // ---------------------------------------------------------------------------
  // The text of each view

  /** `ingredientsList.firstOrNull()?.get("name") as? String ?: "Unknown Food"`. */
  function FoodName(ingredients: seq<Record>): (name: string)
    ensures |ingredients| == 0 ==> name == "Unknown Food"
    ensures |ingredients| > 0 && AsString(Lookup(ingredients[0], "name")).Some? ==>
      name == AsString(Lookup(ingredients[0], "name")).value
    ensures |ingredients| > 0 && AsString(Lookup(ingredients[0], "name")).None? ==> name == "Unknown Food"
  {
    if |ingredients| == 0 then "Unknown Food"
    else StringOr(ingredients[0], "name", "Unknown Food")
  }

  /** Keys that the nutrition line does not list. */
  predicate Listed(key: string) {
    key != "carbon_footprint" && key != "name"
  }

  /** `ingredient.filterKeys { it != "carbon_footprint" && it != "name" }`. */
  function Details(record: Record): (kept: Record)
    ensures |kept| <= |record|
    ensures forall i :: 0 <= i < |kept| ==> Listed(kept[i].0)
  {
    if |record| == 0 then []
    else if Listed(record[0].0) then [record[0]] + Details(record[1..])
    else Details(record[1..])
  }

  /** Filtering keeps exactly the listed entries, in their order. */
  lemma {:induction false} DetailsSplit(a: Record, b: Record)
    ensures Details(a + b) == Details(a) + Details(b)
    decreases |a|
  {
    if |a| == 0 {
      assert a + b == b;
    } else {
      assert (a + b)[0] == a[0];
      assert (a + b)[1..] == a[1..] + b;
      DetailsSplit(a[1..], b);
    }
  }

  lemma {:induction false} DetailsMembers(record: Record)
    ensures forall e :: e in Details(record) <==> e in record && Listed(e.0)
    decreases |record|
  {
    if |record| > 0 {
      DetailsMembers(record[1..]);
      assert record == [record[0]] + record[1..];
    }
  }

  /** `"$key: $value"`. */
  function EntryText(entry: (string, Any)): string {
    entry.0 + ": " + Show(entry.1)
  }

  function EntryTexts(record: Record): (texts: seq<string>)
    ensures |texts| == |record|
    ensures forall i :: 0 <= i < |record| ==> texts[i] == EntryText(record[i])
  {
    if |record| == 0 then [] else [EntryText(record[0])] + EntryTexts(record[1..])
  }

  /** `"$name → $details"`. */
  function NutritionLine(ingredient: Record): string {
    StringOr(ingredient, "name", "Unknown") + " → " + Join(", ", EntryTexts(Details(ingredient)))
  }

  function NutritionLines(ingredients: seq<Record>): (lines: seq<string>)
    ensures |lines| == |ingredients|
    ensures forall i :: 0 <= i < |ingredients| ==> lines[i] == NutritionLine(ingredients[i])
  {
    if |ingredients| == 0 then [] else [NutritionLine(ingredients[0])] + NutritionLines(ingredients[1..])
  }

  function NutritionText(ingredients: seq<Record>): string {
    Join("\n", NutritionLines(ingredients))
  }

  /** `mapNotNull { it["carbon_footprint"] as? String }`. */
  function CarbonValues(ingredients: seq<Record>): (values: seq<string>)
    ensures |values| <= |ingredients|
  {
    if |ingredients| == 0 then []
    else
      var rest := CarbonValues(ingredients[1..]);
      match AsString(Lookup(ingredients[0], "carbon_footprint"))
      case Some(v) => [v] + rest
      case None => rest
  }

  /** Values are collected ingredient by ingredient, in order. */
  lemma {:induction false} CarbonValuesSplit(a: seq<Record>, b: seq<Record>)
    ensures CarbonValues(a + b) == CarbonValues(a) + CarbonValues(b)
    decreases |a|
  {
    if |a| == 0 {
      assert a + b == b;
    } else {
      assert (a + b)[0] == a[0];
      assert (a + b)[1..] == a[1..] + b;
      CarbonValuesSplit(a[1..], b);
    }
  }

  /** A value is listed exactly when some ingredient has it as its string
      `carbon_footprint`. */
  lemma {:induction false} CarbonValuesMembers(ingredients: seq<Record>, v: string)
    ensures v in CarbonValues(ingredients) <==>
      exists i :: 0 <= i < |ingredients| && AsString(Lookup(ingredients[i], "carbon_footprint")) == Some(v)
    decreases |ingredients|
  {
    if |ingredients| > 0 {
      CarbonValuesMembers(ingredients[1..], v);
      var rest := ingredients[1..];
      if exists i :: 0 <= i < |rest| && AsString(Lookup(rest[i], "carbon_footprint")) == Some(v) {
        var i :| 0 <= i < |rest| && AsString(Lookup(rest[i], "carbon_footprint")) == Some(v);
        assert ingredients[i + 1] == rest[i];
      }
      if exists i :: 0 <= i < |ingredients| && AsString(Lookup(ingredients[i], "carbon_footprint")) == Some(v) {
        var i :| 0 <= i < |ingredients| && AsString(Lookup(ingredients[i], "carbon_footprint")) == Some(v);
        if i > 0 {
          assert rest[i - 1] == ingredients[i];
        }
      }
    }
  }

  const CarbonPrefix := "Carbon Footprint: "
  const NoDataAvailable := "No data available"
  const NoCarbonData := CarbonPrefix + NoDataAvailable

  function CarbonText(ingredients: seq<Record>): string {
    var values := CarbonValues(ingredients);
    if |values| > 0 then CarbonPrefix + Join(", ", values) else NoCarbonData
  }

  /** No value is collected exactly when no ingredient has a string
      `carbon_footprint`, and then the view says there is no data. */
  lemma NoCarbonDataExactly(ingredients: seq<Record>)
    ensures CarbonValues(ingredients) == [] <==>
      forall i :: 0 <= i < |ingredients| ==> AsString(Lookup(ingredients[i], "carbon_footprint")).None?
    ensures CarbonValues(ingredients) == [] ==> CarbonText(ingredients) == NoCarbonData
    ensures CarbonValues(ingredients) != [] ==>
      CarbonText(ingredients) == CarbonPrefix + Join(", ", CarbonValues(ingredients))
  {
    var values := CarbonValues(ingredients);
    if |values| > 0 {
      CarbonValuesMembers(ingredients, values[0]);
    } else {
      forall i | 0 <= i < |ingredients|
        ensures AsString(Lookup(ingredients[i], "carbon_footprint")).None?
      {
        var o := AsString(Lookup(ingredients[i], "carbon_footprint"));
        if o.Some? {
          CarbonValuesMembers(ingredients, o.value);
        }
      }
    }
  }

  /** When the only footprint collected is the string "No data available",
      the view shows the same text as when there is no footprint at all. */
  lemma CarbonTextAmbiguous(ingredients: seq<Record>)
    ensures CarbonValues(ingredients) == [NoDataAvailable] ==> CarbonText(ingredients) == NoCarbonData
  {
    if CarbonValues(ingredients) == [NoDataAvailable] {
      assert Join(", ", [NoDataAvailable]) == NoDataAvailable;
    }
  }

  /** `"$nutrient: $amount"`. */
  function DeficiencyLine(deficiency: Record): string {
    StringOr(deficiency, "nutrient", "Unknown") + ": " + StringOr(deficiency, "deficiency_amount", "N/A")
  }

  function DeficiencyLines(deficiencies: seq<Record>): (lines: seq<string>)
    ensures |lines| == |deficiencies|
    ensures forall i :: 0 <= i < |deficiencies| ==> lines[i] == DeficiencyLine(deficiencies[i])
  {
    if |deficiencies| == 0 then [] else [DeficiencyLine(deficiencies[0])] + DeficiencyLines(deficiencies[1..])
  }

  /** `"$name: $description"`. */
  function RecommendationLine(recommendation: Record): string {
    StringOr(recommendation, "name", "Unknown") + ": " + StringOr(recommendation, "description", "N/A")
  }

  function RecommendationLines(recommendations: seq<Record>): (lines: seq<string>)
    ensures |lines| == |recommendations|
    ensures forall i :: 0 <= i < |recommendations| ==> lines[i] == RecommendationLine(recommendations[i])
  {
    if |recommendations| == 0 then []
    else [RecommendationLine(recommendations[0])] + RecommendationLines(recommendations[1..])
  }

  // ---------------------------------------------------------------------------
  // The listener

  /** The views filled from one document. */
  function Fill(doc: NutritionRecord): (screen: Screen)
    ensures screen.photoUrl == OrDefault(doc.photoUrl, "")
    ensures screen.foodName == "Food: " + FoodName(Items(doc.ingredients))
    ensures screen.capturedAt == doc.timestamp
    ensures screen.nutrition == NutritionText(Items(doc.ingredients))
    ensures screen.carbonFootprint == CarbonText(Items(doc.ingredients))
    ensures screen.missingNutrients == Join("\n", DeficiencyLines(Items(doc.nutrientDeficiencies)))
    ensures screen.recommendations == Join("\n", RecommendationLines(Items(doc.recommendations)))
  {
    var ingredients := Items(doc.ingredients);
    Screen(
      OrDefault(doc.photoUrl, ""),
      "Food: " + FoodName(ingredients),
      doc.timestamp,
      NutritionText(ingredients),
      Join("\n", DeficiencyLines(Items(doc.nutrientDeficiencies))),
      Join("\n", RecommendationLines(Items(doc.recommendations))),
      CarbonText(ingredients))
  }

  /** One call of the snapshot listener: the views after it, given the views
      before it and the clock. */
  function OnSnapshot(snapshot: Snapshot, now: int, current: Screen): (next: Screen)
    ensures snapshot.ListenFailed? ==> next == current
    ensures snapshot.Documents? && |snapshot.docs| == 0 ==> next == current
    ensures snapshot.Documents? && |snapshot.docs| > 0 ==>
      next == if IsStale(now, snapshot.docs[0].timestamp) then current else Fill(snapshot.docs[0])
  {
    match snapshot
    case ListenFailed => current
    case Documents(docs) =>
      if |docs| == 0 then current
      else if IsStale(now, docs[0].timestamp) then current
      else Fill(docs[0])
  }

  // ---------------------------------------------------------------------------
  // Properties of the views

  /** A document without a timestamp is always shown. */
  lemma MissingTimestampShown(doc: NutritionRecord, rest: seq<NutritionRecord>, now: int, current: Screen)
    requires doc.timestamp.None?
    ensures OnSnapshot(Documents([doc] + rest), now, current) == Fill(doc)
  {
  }

  /** Each list field drives only its own views: replacing the recommendations
      changes only the recommendation view, replacing the deficiencies only the
      missing-nutrient view, and replacing the ingredients only the food name,
      nutrition and carbon footprint views. */
  lemma FieldsDriveOwnViews(doc: NutritionRecord, f: Field)
    ensures var a, b := Fill(doc), Fill(doc.(recommendations := f));
      b == a.(recommendations := b.recommendations)
    ensures var a, b := Fill(doc), Fill(doc.(nutrientDeficiencies := f));
      b == a.(missingNutrients := b.missingNutrients)
    ensures var a, b := Fill(doc), Fill(doc.(ingredients := f));
      b == a.(foodName := b.foodName, nutrition := b.nutrition, carbonFootprint := b.carbonFootprint)
  {
  }

  /** Fields that are not lists show as if they were empty. */
  lemma NonListFieldsShowNothing(doc: NutritionRecord)
    requires doc.ingredients.NotRecords? && doc.nutrientDeficiencies.NotRecords? && doc.recommendations.NotRecords?
    ensures var screen := Fill(doc);
      && screen.foodName == "Food: Unknown Food"
      && screen.nutrition == "" && screen.missingNutrients == "" && screen.recommendations == ""
      && screen.carbonFootprint == NoCarbonData
  {
  }

  /** The nutrition view has one line per ingredient, in order, provided no
      line itself contains a line break. */
  lemma NutritionTextLines(ingredients: seq<Record>)
    requires |ingredients| > 0
    requires forall i :: 0 <= i < |ingredients| ==> Lacks(NutritionLine(ingredients[i]), '\n')
    ensures SplitOn(NutritionText(ingredients), '\n') == NutritionLines(ingredients)
  {
    var lines := NutritionLines(ingredients);
    forall k | 0 <= k < |lines|
      ensures Lacks(lines[k], '\n')
    {
      assert lines[k] == NutritionLine(ingredients[k]);
    }
    assert "\n" == ['\n'];
    SplitJoin(lines, '\n');
  }

  /** Likewise for deficiencies. */
  lemma DeficiencyTextLines(deficiencies: seq<Record>)
    requires |deficiencies| > 0
    requires forall i :: 0 <= i < |deficiencies| ==> Lacks(DeficiencyLine(deficiencies[i]), '\n')
    ensures SplitOn(Join("\n", DeficiencyLines(deficiencies)), '\n') == DeficiencyLines(deficiencies)
  {
    var lines := DeficiencyLines(deficiencies);
    forall k | 0 <= k < |lines|
      ensures Lacks(lines[k], '\n')
    {
      assert lines[k] == DeficiencyLine(deficiencies[k]);
    }
    SplitJoin(lines, '\n');
    assert Join("\n", lines) == Join(['\n'], lines);
  }

  /** Likewise for recommendations. */
  lemma RecommendationTextLines(recommendations: seq<Record>)
    requires |recommendations| > 0
    requires forall i :: 0 <= i < |recommendations| ==> Lacks(RecommendationLine(recommendations[i]), '\n')
    ensures SplitOn(Join("\n", RecommendationLines(recommendations)), '\n') == RecommendationLines(recommendations)
  {
    var lines := RecommendationLines(recommendations);
    forall k | 0 <= k < |lines|
      ensures Lacks(lines[k], '\n')
    {
      assert lines[k] == RecommendationLine(recommendations[k]);
    }
    assert "\n" == ['\n'];
    SplitJoin(lines, '\n');
  }

  /** A nutrition line lists the ingredient's entries except its name and
      carbon footprint, each once, in the map's order. */
  lemma NutritionLineEntries(ingredient: Record, before: Record, after: Record, key: string, value: Any)
    requires ingredient == before + [(key, value)] + after
    requires Listed(key)
    ensures NutritionLine(ingredient) == StringOr(ingredient, "name", "Unknown") + " → "
      + Join(", ", EntryTexts(Details(before) + [(key, value)] + Details(after)))
  {
    DetailsSplit(before + [(key, value)], after);
    DetailsSplit(before, [(key, value)]);
    assert Details([(key, value)]) == [(key, value)] by {
      assert [(key, value)][1..] == [];
    }
  }

  /** A deficiency written with a `deficiency_percentage` but no
      `deficiency_amount` shows "N/A" for its amount. */
  lemma PercentageNotShown(nutrient: string, percentage: string)
    ensures DeficiencyLine([("nutrient", Text(nutrient)), ("deficiency_percentage", Text(percentage))])
      == nutrient + ": N/A"
  {
  }
}
