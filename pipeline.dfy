/**
 * The columns of the training pipeline of DocMLCategorization/Program.cs:
 * each text column of a training row is featurised into a column of its own,
 * and those columns are concatenated into `Features`. The transforms
 * themselves are not modelled, only the names they read and write.
 */
module Pipeline {
  import opened Sequences
  import opened Extensions
  import opened Parsing

  /** The text columns the pipeline featurises, `Title` to `Top20Words` of the loaded columns. */
  const FeaturizedSources: seq<string> := LoadColumns[1..8]

  /** The columns concatenated into `Features`, in the order of the pipeline. */
  const FeatureColumns: seq<string> := Map(Featurized, FeaturizedSources)

  /**
   * The pipeline featurises the seven text columns `Title` to `Top20Words`
   * into columns with distinct names, none of which overwrites a loaded column.
   */
  lemma FeatureColumnsAreNew()
    ensures FeaturizedSources == ["Title", "Subtitle1", "Subtitle2", "Subtitle3", "Subtitle4", "Subtitle5", "Top20Words"]
    ensures NoDuplicates(FeatureColumns)
    ensures forall c :: c in LoadColumns ==> c !in FeatureColumns
  {
  }
}
