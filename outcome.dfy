/** Failures raised along the trendline computation, in the order the code can reach them. */
module Outcome {

  datatype Error =
    | NoSamples             // the regression was asked to fit zero rows
    | DivisionByZero        // `total_residuals // num_chunks` with num_chunks == 0
    | NothingToConcatenate  // no chunk was processed (num_chunks < 0), so there is no index list to join
    | PercentileOutOfRange  // a percentile outside [0, 100] was requested
    | EmptyChunk            // a percentile was requested of an empty chunk

  datatype Result<+T, +E> = Ok(value: T) | Err(error: E)
}
