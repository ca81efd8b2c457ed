/** The carbon impact of each waste category and the advice shown for it.
    Impacts are in tenths of a kilogram (0.5 kg is 5). */
module Carbon {

  datatype Footprint = Footprint(impact: int, suggestions: seq<string>)

  /** The five categories the classifier is asked to choose from. */
  const Categories: set<string> := {"Recyclable", "Hazardous", "Organic", "Non-Recyclable", "Industrial"}

  const ImpactTenths: map<string, int> := map[
    "Recyclable" := 5,
    "Hazardous" := 20,
    "Organic" := 8,
    "Non-Recyclable" := 15,
    "Industrial" := 30
  ]

  /** The impact used for a category the table does not know: 1.0 kg. */
  const FallbackImpact: int := 10

  const ReductionSuggestions: map<string, seq<string>> := map[
    "Recyclable" := [
      "Clean and separate materials properly before recycling",
      "Choose products with minimal packaging",
      "Reuse containers when possible"],
    "Hazardous" := [
      "Use eco-friendly alternatives to hazardous products",
      "Properly dispose of hazardous waste at designated facilities",
      "Reduce usage of products containing harmful chemicals"],
    "Organic" := [
      "Start composting at home",
      "Reduce food waste through meal planning",
      "Use organic waste for garden fertilizer"],
    "Non-Recyclable" := [
      "Choose recyclable alternatives when available",
      "Avoid single-use products",
      "Support brands that use sustainable packaging"],
    "Industrial" := [
      "Implement waste reduction strategies",
      "Choose suppliers with sustainable practices",
      "Invest in recycling equipment"]
  ]

  /** `calculateCarbonFootprint`: `CARBON_IMPACT[type] || 1.0` (a zero impact
      would also fall back) and `REDUCTION_SUGGESTIONS[type] || []` (an array
      is never falsy, so only a missing key falls back). The key match is
      exact and case-sensitive. */
  function CalculateCarbonFootprint(wasteType: string): (f: Footprint)
    ensures f.impact > 0
    ensures wasteType in Categories ==> f.impact == ImpactTenths[wasteType] && f.suggestions == ReductionSuggestions[wasteType]
    ensures wasteType !in Categories ==> f == Footprint(FallbackImpact, [])
    ensures |f.suggestions| == 3 <==> wasteType in Categories
    ensures f.suggestions != [] <==> wasteType in Categories
  {
    var impact := if wasteType in ImpactTenths && ImpactTenths[wasteType] != 0 then ImpactTenths[wasteType] else FallbackImpact;
    var suggestions := if wasteType in ReductionSuggestions then ReductionSuggestions[wasteType] else [];
    Footprint(impact, suggestions)
  }

  /** The impacts of the five categories. */
  lemma ImpactTable()
    ensures CalculateCarbonFootprint("Recyclable").impact == 5
    ensures CalculateCarbonFootprint("Hazardous").impact == 20
    ensures CalculateCarbonFootprint("Organic").impact == 8
    ensures CalculateCarbonFootprint("Non-Recyclable").impact == 15
    ensures CalculateCarbonFootprint("Industrial").impact == 30
  {
  }

  /** No table impact equals the fallback, so the impact reveals whether the
      category was known: it is the fallback exactly when there is no advice. */
  lemma FallbackIffNoSuggestions(wasteType: string)
    ensures CalculateCarbonFootprint(wasteType).impact == FallbackImpact <==> CalculateCarbonFootprint(wasteType).suggestions == []
  {
  }

  /** The lookup is case-sensitive: "recyclable" is not a known category. */
  lemma CaseSensitive()
    ensures CalculateCarbonFootprint("recyclable") == Footprint(FallbackImpact, [])
  {
  }
}
