/** The parts of an Express request the core reads and writes. */
module Requests {
  import opened JsValues

  /** The request headers the core reads; each is a string or absent. */
  datatype Headers = Headers(
    cookie: Option<string>,
    forwardedFor: Option<string>,
    realIp: Option<string>,
    userAgent: Option<string>)

  /** A header (or address) used as a condition: present and non-empty. */
  predicate Present(h: Option<string>) {
    h.Some? && h.value != ""
  }

  /** What `res.json` was last called with: nothing yet, or a response body
      whose `datosSolr` array has the given length when it has one. */
  datatype ResponseData = NoResponse | Body(datosSolrLength: Option<nat>)

  /** An incoming request. The headers, the connection address and the
      routing fields are fixed; the fields the middleware and the consulta
      handler assign are mutable. */
  class Request {
    const httpMethod: string
    const originalUrl: Option<string>
    const headers: Headers
    const remoteAddress: Option<string>
    const ip: Option<string>

    var sid: Option<string>
    var clientIp: Option<string>
    var userAgent: Option<string>
    var totalRegistros: Option<nat>
    var responseData: ResponseData

    /** A request as it arrives, before any middleware has run. */
    constructor (httpMethod: string, originalUrl: Option<string>, headers: Headers,
                 remoteAddress: Option<string>, ip: Option<string>)
      ensures this.httpMethod == httpMethod && this.originalUrl == originalUrl && this.headers == headers
      ensures this.remoteAddress == remoteAddress && this.ip == ip
      ensures sid == None && clientIp == None && userAgent == None
      ensures totalRegistros == None && responseData == NoResponse
    {
      this.httpMethod := httpMethod;
      this.originalUrl := originalUrl;
      this.headers := headers;
      this.remoteAddress := remoteAddress;
      this.ip := ip;
      sid := None;
      clientIp := None;
      userAgent := None;
      totalRegistros := None;
      responseData := NoResponse;
    }
  }
}
