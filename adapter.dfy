/**
 * `get_weight_training_metrics`: the entry point that takes an activity
 * record. The activity is a map from field names to values, `None` standing
 * for a field whose value is Python's `None`.
 */
module Adapter {
  import opened Wrappers
  import opened Aggregator

  /** `activity.get('description', '') or ''`: the description, or `""` when it is missing, `None` or empty. */
  function DescriptionField(activity: map<string, Option<string>>): (d: string)
    ensures d == [] <==> "description" !in activity || activity["description"] in {None, Some([])}
    ensures d != [] ==> activity["description"] == Some(d)
  {
    if "description" in activity && activity["description"].Some? then activity["description"].value else []
  }

  /** The metrics of the activity's description; all zero when it has none. */
  method GetWeightTrainingMetrics(activity: map<string, Option<string>>) returns (m: Metrics)
    ensures m == DescriptionMetrics(Some(DescriptionField(activity)))
    ensures "description" !in activity || activity["description"] in {None, Some([])} ==> m == Zero
    ensures "description" in activity && activity["description"].Some?
            ==> m == DescriptionMetrics(activity["description"])
  {
    m := ParseWeightTrainingDescription(Some(DescriptionField(activity)));
  }
}
