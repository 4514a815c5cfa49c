/** The errors the core throws, with the exact message text of each. */
module Errors {

  datatype Error =
    | CategoryNotFound(category: string)   // extractStreetNames: missing or falsy category
    | FileNotFound(path: string)           // readFile failed with code ENOENT
    | ReadFailed(message: string)          // any other failure before the CSV parser starts
    | CsvParseFailed(message: string)      // the CSV parser emitted an error
    | FetchFailed(message: string)         // fetching the catalogue failed (message as thrown)

  function Message(e: Error): string
  {
    match e
    case CategoryNotFound(c) => "Category '" + c + "' not found in tree data"
    case FileNotFound(p) => "Property data file not found: " + p
    case ReadFailed(m) => "Error reading CSV: " + m
    case CsvParseFailed(m) => "Error parsing CSV: " + m
    case FetchFailed(m) => m
  }
}
