/** The ESP-IDF return codes (esp_err_t) that the firmware's core produces or tests. */
module EspErr {
  /** ESP_OK: success. */
  const EspOk: int := 0
  /** ESP_FAIL: generic failure. */
  const EspFail: int := -1
  /** ESP_ERR_INVALID_ARG: an argument is out of range. */
  const EspErrInvalidArg: int := 0x102
}
