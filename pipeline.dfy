/**
 * The two halves of the pipeline together: what the aggregator makes of a
 * record the consumer saved. Writing and re-reading a stored file is taken to
 * give back the envelope that was written.
 */
module Pipeline {
  import opened Wrappers
  import opened Json
  import opened Transformer
  import opened GenderStats

  /**
   * A saved record is never skipped for its shape or its gender: the scan
   * counts it under its input's `location.country` when that is a truthy
   * hashable value, passes over it when the country is missing or falsy, and
   * logs it as unreadable only when the country is a non-empty list or object.
   */
  lemma SavedRecordVerdict(user: Value, now: string, timestamp: string)
    requires Callback(Decoded(user), now).Save?
    ensures var country := Get(Get(user.fields, "location").fields, "country");
      var verdict := Classify(Entry(SaveFileName(timestamp), Some(Callback(Decoded(user), now).envelope)));
      && (!Truthy(country) ==> verdict == Uncounted)
      && (Truthy(country) && KeyOf(country).Some? ==>
            verdict == Counted(KeyOf(country).value, GenderOf(Get(user.fields, "gender")).value))
      && (Truthy(country) && KeyOf(country).None? ==> verdict == Unreadable)
  {
    var env := Callback(Decoded(user), now).envelope;
    var rec := Record(env);
    CopiesFieldsVerbatim(user, now);
    LocationProjected(user, now);
    assert rec.fields["gender"] == Get(user.fields, "gender");
    assert Get(rec.fields["location"].fields, "country") == Get(Get(user.fields, "location").fields, "country");
    assert env.fields["results"].items == [rec];
    assert Classify(Entry(SaveFileName(timestamp), Some(env))) == InspectUser(rec);
  }
}
