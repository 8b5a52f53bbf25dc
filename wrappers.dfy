/** Optional values and the error kinds the modelled packages return. */
module Wrappers {

  datatype Option<+T> = None | Some(value: T)

  /** Every error value the modelled code can return, by origin. */
  datatype Error =
    // bolt: a bucket lookup inside a transaction found nothing
    | BucketNotFound(bucket: string)
    // bolt: CreateBucket on a name that is already a bucket
    | BucketExists(bucket: string)
    // bolt: CreateBucket with an empty name
    | BucketNameRequired
    // bolt: Put with an empty key
    | KeyRequired
    // secrets.Add: the key failed isValidSecretKey
    | InvalidSecretName(key: string)
    // secrets.Get: no record under the key
    | SecretNotFound(key: string)
    // config.Get: no record under the deployment name
    | DeploymentNotFound
    // a stored record could not be decoded
    | DecodeFailed
    // config.validate rejected the configuration (the reason is not modelled)
    | ValidationFailed(reason: string)
    // service.makeDockerDeploymentJob: an action other than UP or DOWN
    | UnknownAction(action: string)
}
