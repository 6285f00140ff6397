/** The JSON replies the controllers and the middleware send. */
module Http {
  import opened BookSchema

  datatype Body =
    | Message(text: string)   // { message }
    | Error(text: string)     // { error }
    | LibraryError            // { error: err.message } for an error thrown by Mongoose or JSON.parse
    | BookJson(book: Book)    // the document itself

  datatype Reply = Reply(status: int, body: Body)
}
