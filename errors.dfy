/**
 * The SDK's error taxonomy. The source has a common base class with six
 * subclasses that differ only in their name; a flat variant carrying the
 * message holds the same information for five of them. The sixth,
 * NotImplementedError, which the client never throws, is left out.
 */
module Errors {

  datatype ErrorKind =
    | Api(message: string)             // APIError: network failures, bad JSON, 5xx, anything unclassified
    | Authentication(message: string)  // AuthenticationError: 401 and 403
    | NotFound(message: string)        // NotFoundError: 404
    | RateLimit(message: string)       // RateLimitError: 429
    | Validation(message: string)      // ValidationError: bad caller input, or 400
}
