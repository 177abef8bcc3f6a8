/**
  The solutions catalog the browser ships with, used here as concrete data
  for the search and category filter.
 */
module Catalog {
  import opened ReportTypes
  import opened Solutions

  const GarbageGuide := Solution(
    "s1", GarbageManagement, "Garbage Overflow", "https://picsum.photos/seed/garbage/400/300",
    [ "Document the issue with clear photos and note the exact location.",
      "Contact your local municipality or sanitation department via their official helpline or app.",
      "Provide them with the details and get a complaint reference ID.",
      "Follow up regularly using the reference ID until the issue is resolved." ])

  const PotholeGuide := Solution(
    "s2", Potholes, "Fixing Potholes", "https://picsum.photos/seed/potholes/400/300",
    [ "Report the pothole on the official civic body website or app. Many cities have dedicated portals for road maintenance.",
      "Use social media to tag the official accounts of the municipal corporation and local representatives.",
      "Form a resident group to collectively submit a formal complaint to the local ward office." ])

  const StreetlampGuide := Solution(
    "s3", StreetlampIssue, "Non-Functional Streetlamp", "https://picsum.photos/seed/streetlamp/400/300",
    [ "Note the pole number, which is usually painted on the lamp post.",
      "Call the electricity board or the municipal department responsible for street lighting.",
      "File a complaint with the pole number and location details.",
      "If the issue persists, escalate it to a higher authority within the department." ])

  const WaterLoggingGuide := Solution(
    "s4", WaterLogging, "Dealing with Water Logging", "https://picsum.photos/seed/waterlogging/400/300",
    [ "Immediately report the water logging to the local civic body's disaster management or monsoon helpline.",
      "Check for and clear any small blockages in nearby drains if it is safe to do so.",
      "Avoid wading through stagnant water to prevent water-borne diseases.",
      "Advocate for regular pre-monsoon cleaning of drains in your area through your residents' association." ])

  const OpenDrainGuide := Solution(
    "s5", OpenDrainage, "Uncovered or Open Drains", "https://picsum.photos/seed/drainage/400/300",
    [ "This is a major safety hazard. Report it immediately to the municipal corporation.",
      "Take photos and share them on public forums and social media to draw attention.",
      "Submit a written complaint to the local ward office, highlighting the danger to pedestrians, especially children and the elderly." ])

  const Catalog: seq<Solution> := [GarbageGuide, PotholeGuide, StreetlampGuide, WaterLoggingGuide, OpenDrainGuide]

  /** Heavy traffic, poor roads, water/land pollution and "other" have no guide, so selecting them lists nothing. */
  lemma UncoveredCategoriesListNothing(term: string, c: ReportCategory)
    requires c in {HeavyTraffic, PoorRoads, WaterLandPollution, Other}
    ensures FilterSolutions(Catalog, term, Only(c)) == []
  {
    AbsentCategoryListsNothing(Catalog, term, c);
  }

  /** The page's initial state, an empty search over all categories, lists the whole catalog. */
  lemma InitialSearchListsCatalog()
    ensures FilterSolutions(Catalog, "", All) == Catalog
  {
    EmptySearchListsCatalog(Catalog);
  }
}
