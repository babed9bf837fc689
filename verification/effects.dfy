/** The effects the run has on the outside world, in the order they happen. */
module Effects {

  datatype Event =
    | FetchDetail(link: string)                 // GET of a row's detail page
    | SendText(text: string)                    // bot.sendMessage
    | SendPhoto(path: string, accepted: bool)   // bot.sendPhoto, and whether the channel took it
    | DeleteFile(path: string)                  // fs.unlinkSync of a temporary image
}
