/** The configuration the script reads: the webhook settings and the cleanup flag. */
module Settings {

  datatype Config = Config(
    webhookUrl: string,
    timeout: nat,             // seconds, passed to the POST
    maxFileSize: nat,         // bytes
    cleanupAfterUpload: bool)

  /** The values the script falls back to, which are also those of the shipped configuration file. */
  const DEFAULT: Config := Config(
    "https://lacer2k.app.n8n.cloud/webhook-test/b533d79f-b898-40da-ac8d-61039df6dce0",
    30,
    50 * 1024 * 1024,
    true)
}
