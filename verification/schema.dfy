/** Column and feature names shared by the match API and the training
    script. The ranker is trained on `FeatureColumns` and scored on the same
    columns in the same order, so both sides read them from here. */
module Schema {

  const Lat: string := "lat"
  const Lon: string := "lon"
  const DistanceKm: string := "distance_km"
  const AcceptRate: string := "accept_rate_7d"
  const AvgResponseMs: string := "avg_response_ms"

  /** Inference columns of the ranker and the features the drift detector watches. */
  const FeatureColumns: seq<string> := [DistanceKm, AcceptRate, AvgResponseMs]

  /** The names are pairwise distinct and none is colon-qualified. */
  lemma NamesDistinct()
    ensures Lat != Lon && Lat != AcceptRate && Lat != AvgResponseMs && Lat != DistanceKm
    ensures Lon != AcceptRate && Lon != AvgResponseMs && Lon != DistanceKm
    ensures AcceptRate != AvgResponseMs && AcceptRate != DistanceKm && AvgResponseMs != DistanceKm
    ensures ':' !in Lat && ':' !in Lon && ':' !in AcceptRate && ':' !in AvgResponseMs && ':' !in DistanceKm
  {
    assert Lat[1] != Lon[1];
    assert |Lat| == 3 && |AcceptRate| == 14 && |AvgResponseMs| == 15 && |DistanceKm| == 11;
    assert AcceptRate[1] != DistanceKm[1];
  }
}
