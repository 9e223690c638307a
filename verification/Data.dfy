/** Readings as the ingest interface takes them. */
module Data {
  datatype Quality = Good | Bad | Uncertain

  datatype ReadingIn = ReadingIn(
    deviceCode: string, channelCode: string, timestamp: int, value: real, unit: string, quality: Quality)
}
