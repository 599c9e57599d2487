/** The value types of the analysis records (types.ts) and the two
    failure-carrying wrappers used throughout the model. */
module Types {

  datatype Option<+T> = None | Some(value: T)

  /** The outcome of an operation that may throw: `Err` carries the
      exception's `message` (the empty string when it has none). */
  datatype Result<+T> = Ok(value: T) | Err(message: string)

  /** The six facial norms, each scored by the external scorer. */
  datatype FacialNorms = FacialNorms(
    facialSymmetry: real,
    skinHealth: real,
    averageness: real,
    sexualDimorphism: real,
    neoteny: real,
    goldenRatio: real)

  /** One short text justification per norm. */
  datatype AnalysisJustification = AnalysisJustification(
    facialSymmetry: string,
    skinHealth: string,
    averageness: string,
    sexualDimorphism: string,
    neoteny: string,
    goldenRatio: string)

  /** One detected face as the scorer returns it; `rank` is the optional
      field the scorer fills in. */
  datatype FaceAnalysis = FaceAnalysis(
    id: string,
    name: Option<string>,
    scores: FacialNorms,
    justifications: AnalysisJustification,
    overallScore: real,
    rank: Option<int>)

  /** One completed analysis session: `id` is the image fingerprint,
      `timestamp` the creation time, `imageData` the data URL of the image. */
  datatype AnalysisResult = AnalysisResult(
    id: string,
    timestamp: int,
    imageData: string,
    faces: seq<FaceAnalysis>)

  datatype AnalysisStatus = Idle | Loading | Success | Error
}
