/** How `GetImagesURLS`, `DownloadImages` and `GetImages` in
    `controllers/images/service.go` can fail. The service wraps none of these
    in a typed error. */
module Failures {
  import opened Browser

  /** `PagesExhausted`, `LoadNeverFinished` and `WaitGroupPanic` are outcomes
      of this model only: where the page list ends the program waits for the
      timeout, where no load completes it waits for ever, and where the
      listener completes twice `Done()` panics on a negative counter. */
  datatype ScrapeError =
    | NavigationError(url: string, reason: string)
    | QueryError(reason: string)
    | NoImageSource
    | PagesExhausted
    | LoadNeverFinished(url: string)
    | WaitGroupPanic(url: string)
    | BodyError(id: RequestId)
    | WriteError(path: string)
    | MkdirError(path: string)
}
