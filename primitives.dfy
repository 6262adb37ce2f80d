/** The collaborators the signing engine calls but does not define. Each is a total,
    deterministic function whose behaviour the model leaves open. */
module Primitives {

  datatype Host = Host(
    /** The keyed hash of a message, rendered as text (`hmac.sign`). */
    sign: string -> string,
    /** JavaScript `encodeURI` and `decodeURI`. */
    encodeUri: string -> string,
    decodeUri: string -> string,
    /** JavaScript `encodeURIComponent` and `decodeURIComponent`. */
    encodeUriComponent: string -> string,
    decodeUriComponent: string -> string)
}
